/** Where a type's healthy rules and its states part company: a search over values around every constant compared with. */
module Consistency {
  import opened Ordering
  import opened Enumeration
  import opened Expr
  import opened Models
  import opened ProbeChoice

  datatype Kind = KInt | KBool | KStr | KNum

  type Assignment = map<string, Value>

  /** A type as the search reads it, for one component. */
  datatype Subject = Subject(
    kinds: map<string, Kind>,
    rules: seq<Node>,
    states: seq<StateDef>,
    defaultState: string,
    component: string,
    vars: string -> VarValue,
    num: Numerals)

  /** The context in which exactly the facts of a are known. */
  function CtxUnder(t: Subject, a: Assignment): Ctx {
    Ctx(t.component, (c: string, k: string) => if c == t.component && k in a then Some(a[k]) else None,
        (c: string, k: string) => if c == t.component then t.vars(k) else Unset, map[], t.num)
  }

  // ---------------------------------------------------------------- what the facts say

  function StateUnder(states: seq<StateDef>, ctx: Ctx): (string, Mark) {
    if states == [] then ("", Unmarked)
    else if states[0].when.Some? && Eval(states[0].when.value, ctx) == Decided(true) then (states[0].name, states[0].mark)
    else StateUnder(states[1..], ctx)
  }

  datatype Health = Health(state: string, healthy: bool, decided: bool)

  /** A mark settles it; without one every rule has to be decided, and has to be true. */
  function HealthOf(t: Subject, a: Assignment): Health {
    var ctx := CtxUnder(t, a);
    var (state, mark) := StateUnder(t.states, ctx);
    match mark
    case MarkBroken => Health(state, false, true)
    case MarkHealthy => Health(state, true, true)
    case Unmarked =>
      if exists i :: 0 <= i < |t.rules| && !Eval(t.rules[i], ctx).Decided? then Health(state, false, false)
      else Health(state, forall i :: 0 <= i < |t.rules| ==> Eval(t.rules[i], ctx) == Decided(true), true)
  }

  function MarkOf(states: seq<StateDef>, name: string): Mark {
    if states == [] then Unmarked else if states[0].name == name then states[0].mark else MarkOf(states[1..], name)
  }

  /** The verdict h does not fit its state: the default state and those marked healthy have to be healthy, the
      others must not be, and outside every state nothing may be unhealthy. */
  predicate Disagrees(t: Subject, h: Health) {
    h.decided &&
    if h.state == "" then !h.healthy
    else h.healthy != (h.state == t.defaultState || MarkOf(t.states, h.state).MarkHealthy?)
  }

  // ---------------------------------------------------------------- what a health says

  /** What is assumed of the component's facts is known, and nothing else is; its vars, and nobody's state. */
  lemma CtxUnderReads(t: Subject, a: Assignment)
    ensures var ctx := CtxUnder(t, a);
            && ctx.current == t.component && ctx.states == map[] && ctx.num == t.num
            && (forall c, k, v :: ctx.facts(c, k) == Some(v) <==> c == t.component && k in a && a[k] == v)
            && (forall k :: ctx.vars(t.component, k) == t.vars(k))
  {}

  lemma {:induction false} StateUnderMeans(states: seq<StateDef>, ctx: Ctx)
    ensures forall i :: FirstState(states, ctx, i) ==> StateUnder(states, ctx) == (states[i].name, states[i].mark)
    ensures (forall i :: !FirstState(states, ctx, i)) ==> StateUnder(states, ctx) == ("", Unmarked)
  {
    hide Eval;
    if states != [] {
      var rest := states[1..];
      if states[0].when.Some? && Eval(states[0].when.value, ctx) == Decided(true) {
        assert FirstState(states, ctx, 0);
      } else {
        StateUnderMeans(rest, ctx);
        FirstOfRest(states, ctx);
      }
    }
  }

  /** The state is the first that holds, "" when none does. Healthy and decided it is when that state is marked so; else, and
      not when it is marked broken, when every rule is true; and not decided when it is unmarked and a rule is open. */
  lemma {:induction false} HealthMeans(t: Subject, a: Assignment)
    ensures var h, ctx := HealthOf(t, a), CtxUnder(t, a);
            && (forall i :: FirstState(t.states, ctx, i) ==> h.state == t.states[i].name)
            && ((forall i :: !FirstState(t.states, ctx, i)) ==> h.state == "")
            && (h.decided <==> (exists i :: FirstState(t.states, ctx, i) && t.states[i].mark != Unmarked) ||
                               forall r :: r in t.rules ==> Eval(r, ctx).Decided?)
            && (h.decided ==>
                  (h.healthy <==> (exists i :: FirstState(t.states, ctx, i) && t.states[i].mark == MarkHealthy) ||
                                  ((forall i :: FirstState(t.states, ctx, i) ==> t.states[i].mark == Unmarked) &&
                                   forall r :: r in t.rules ==> Eval(r, ctx) == Decided(true))))
  {
    hide Eval;
    var ctx := CtxUnder(t, a);
    StateUnderMeans(t.states, ctx);
    assert forall i :: 0 <= i < |t.rules| ==> t.rules[i] in t.rules;
    forall r | r in t.rules ensures exists i :: 0 <= i < |t.rules| && t.rules[i] == r {}
    if i :| FirstState(t.states, ctx, i) {
      assert forall j :: FirstState(t.states, ctx, j) ==> j == i;
    }
  }

  lemma {:induction false} MarkOfMeans(states: seq<StateDef>, name: string)
    ensures MarkOf(states, name) == MarkHealthy <==> exists i :: FirstOfName(states, name, i) && states[i].mark == MarkHealthy
  {
    if states != [] {
      var rest := states[1..];
      MarkOfMeans(rest, name);
      assert forall i :: 0 <= i < |rest| ==> rest[i] == states[i + 1];
      if states[0].name == name {
        assert FirstOfName(states, name, 0);
      } else {
        forall i | FirstOfName(rest, name, i) ensures FirstOfName(states, name, i + 1) {
          forall j | 0 <= j < i + 1 ensures states[j].name != name { if j > 0 { assert rest[j - 1] == states[j]; } }
        }
        forall i | FirstOfName(states, name, i) ensures FirstOfName(rest, name, i - 1) {
          forall j | 0 <= j < i - 1 ensures rest[j].name != name { assert rest[j] == states[j + 1]; }
        }
      }
    }
  }

  /** A decided health disagrees when nothing holds and it is unhealthy; when the default state holds, or one marked healthy,
      and it is unhealthy; and when another does and it is healthy. */
  lemma DisagreesMeans(t: Subject, h: Health)
    ensures Disagrees(t, h) <==>
              h.decided &&
              var well := h.state == t.defaultState || exists i :: FirstOfName(t.states, h.state, i) && t.states[i].mark == MarkHealthy;
              if h.healthy then h.state != "" && !well else h.state == "" || well
  {
    MarkOfMeans(t.states, h.state);
  }

  // ---------------------------------------------------------------- candidates

  /** The constants that one comparison adds to fact. */
  function NumsAt(t: Subject, n: Node, fact: string): set<real>
    requires n.Cmp?
  {
    if n.component != "" || n.fact !in t.kinds then {}
    else
      match n.value
      case VInt(i) => if fact == n.fact then {i as real} else {}
      case VNum(r) => if fact == n.fact then {r} else {}
      case VStr(s) =>
        if t.kinds[n.fact].KStr? then {}
        else if s in t.kinds then (if fact == n.fact || fact == s then {0.0, 1.0} else {})
        else if t.vars(s).Number? && fact == n.fact then {t.vars(s).r}
        else {}
      case _ => {}
  }

  function StrsAt(t: Subject, n: Node, fact: string): set<string>
    requires n.Cmp?
  {
    if n.component == "" && n.fact == fact && fact in t.kinds && t.kinds[fact].KStr? && n.value.VStr? then {n.value.s} else {}
  }

  /** The comparison is of fact with another fact. */
  predicate RelativeAt(t: Subject, n: Node, fact: string)
    requires n.Cmp?
  {
    n.component == "" && n.fact in t.kinds && n.value.VStr? && !t.kinds[n.fact].KStr? && n.value.s in t.kinds &&
    (fact == n.fact || fact == n.value.s)
  }

  predicate RelativeIn(t: Subject, n: Node, fact: string) {
    match n
    case And(l, r) => RelativeIn(t, l, fact) || RelativeIn(t, r, fact)
    case Or(l, r) => RelativeIn(t, l, fact) || RelativeIn(t, r, fact)
    case Cmp(_, _, _, _) => RelativeAt(t, n, fact)
  }

  function NumsIn(t: Subject, n: Node, fact: string): set<real> {
    match n
    case And(l, r) => NumsIn(t, l, fact) + NumsIn(t, r, fact)
    case Or(l, r) => NumsIn(t, l, fact) + NumsIn(t, r, fact)
    case Cmp(_, _, _, _) => NumsAt(t, n, fact)
  }

  function StrsIn(t: Subject, n: Node, fact: string): set<string> {
    match n
    case And(l, r) => StrsIn(t, l, fact) + StrsIn(t, r, fact)
    case Or(l, r) => StrsIn(t, l, fact) + StrsIn(t, r, fact)
    case Cmp(_, _, _, _) => StrsAt(t, n, fact)
  }

  /** Every predicate the search reads: the rules, then the states'. */
  function Predicates(rules: seq<Node>, states: seq<StateDef>): seq<Node> {
    if states == [] then rules
    else Predicates(rules, states[..|states| - 1]) +
         (if states[|states| - 1].when.Some? then [states[|states| - 1].when.value] else [])
  }

  function AllNums(t: Subject, ns: seq<Node>, fact: string): set<real> {
    if ns == [] then {} else AllNums(t, ns[..|ns| - 1], fact) + NumsIn(t, ns[|ns| - 1], fact)
  }

  predicate AnyRelative(t: Subject, ns: seq<Node>, fact: string) {
    ns != [] && (AnyRelative(t, ns[..|ns| - 1], fact) || RelativeIn(t, ns[|ns| - 1], fact))
  }

  function AllStrs(t: Subject, ns: seq<Node>, fact: string): set<string> {
    if ns == [] then {} else AllStrs(t, ns[..|ns| - 1], fact) + StrsIn(t, ns[|ns| - 1], fact)
  }

  lemma SomeReal(s: set<real>)
    ensures s != {} ==> exists x :: x in s
  {
    if forall x :: x !in s { assert s == {}; }
  }

  lemma LowestReal(s: set<real>)
    requires s != {}
    ensures exists x :: x in s && forall y :: y in s ==> x <= y
    decreases |s|
  {
    SomeReal(s);
    var x :| x in s;
    if s != {x} {
      LowestReal(s - {x});
      var y :| y in s - {x} && forall z :: z in s - {x} ==> y <= z;
      var least := if x <= y then x else y;
      forall z | z in s ensures least <= z { assert z == x || z in s - {x}; }
    }
  }

  function Rising(s: set<real>): seq<real>
    decreases |s|
  {
    if s == {} then []
    else
      LowestReal(s);
      var x :| x in s && forall y :: y in s ==> x <= y;
      [x] + Rising(s - {x})
  }

  lemma {:induction false} RisingMeans(s: set<real>)
    ensures forall x :: x in Rising(s) <==> x in s
    decreases |s|
  {
    if s != {} {
      LowestReal(s);
      var x :| x in s && forall y :: y in s ==> x <= y;
      RisingMeans(s - {x});
      var rest := Rising(s - {x});
      assert Rising(s) == [x] + rest;
      hide Rising;
      forall z ensures z in [x] + rest <==> z == x || z in rest {}
    }
  }

  lemma {:induction false} RisingOnce(s: set<real>)
    ensures NoDup(Rising(s))
    decreases |s|
  {
    if s != {} {
      LowestReal(s);
      var x :| x in s && forall y :: y in s ==> x <= y;
      RisingOnce(s - {x});
      RisingMeans(s - {x});
      var rest := Rising(s - {x});
      assert Rising(s) == [x] + rest && x !in rest;
    }
  }

  /** Each constant with its neighbours, none below zero. */
  function Near(nums: set<real>, step: real): set<real> {
    (set c | c in nums && c - step >= 0.0 :: c - step) +
    (set c | c in nums && c >= 0.0) +
    (set c | c in nums && c + step >= 0.0 :: c + step)
  }

  /** The values tried for a fact: both booleans, the strings it is compared with, or the numbers around its constants. */
  function Tries(kind: Kind, nums: set<real>, strs: set<string>): seq<Value> {
    if kind.KBool? then [VBool(true), VBool(false)]
    else if kind.KStr? && strs != {} then
      var names := SortedNames(strs);
      seq(|names|, i requires 0 <= i < |names| => VStr(names[i]))
    else
      var near := Rising(Near(nums, if kind.KInt? then 1.0 else 0.001));
      seq(|near|, i requires 0 <= i < |near| => if kind.KInt? then VInt(near[i].Floor) else VNum(near[i]))
  }

  /** The constants fact is compared with anywhere. */
  function Constants(t: Subject, fact: string): set<real> {
    AllNums(t, Predicates(t.rules, t.states), fact)
  }

  function Literals(t: Subject, fact: string): set<string> {
    AllStrs(t, Predicates(t.rules, t.states), fact)
  }

  /** Somewhere fact is compared with another fact. */
  predicate Relative(t: Subject, fact: string) {
    AnyRelative(t, Predicates(t.rules, t.states), fact)
  }

  function TriesFor(t: Subject, fact: string): seq<Value>
    requires fact in t.kinds
  {
    Tries(t.kinds[fact], Constants(t, fact), Literals(t, fact))
  }

  /** No value is listed twice. */
  ghost predicate TriedOnce(t: Subject, f: string)
    requires f in t.kinds
  {
    NoDup(TriesFor(t, f))
  }

  function Fraction(c: real): real {
    c - c.Floor as real
  }

  /** Two constants from both of which the search comes to numbers that round down to m. */
  predicate Meet(c: real, d: real, m: int) {
    Fraction(c) != Fraction(d) && -1 <= m - c.Floor <= 1 && -1 <= m - d.Floor <= 1
  }

  /** Two constants with different fractions and whole parts at most two apart, not so low that what is tried around them
      stays below least. */
  predicate Crowded(c: real, d: real, least: int) {
    Fraction(c) != Fraction(d) && -2 <= c.Floor - d.Floor <= 2 && c.Floor + 1 >= least && d.Floor + 1 >= least
  }

  /** f is no count, or no two of its constants are so close. */
  ghost predicate Apart(t: Subject, f: string, least: int)
    requires f in t.kinds
  {
    t.kinds[f].KInt? ==> forall c, d :: c in Constants(t, f) && d in Constants(t, f) ==> !Crowded(c, d, least)
  }

  ghost predicate SomeMeet(nums: set<real>, m: int) {
    exists c, d :: c in nums && d in nums && Meet(c, d, m)
  }

  lemma CrowdedMeets(nums: set<real>, least: int)
    ensures (exists c, d :: c in nums && d in nums && Crowded(c, d, least)) <==> exists m :: m >= least && SomeMeet(nums, m)
  {
    if c, d :| c in nums && d in nums && Crowded(c, d, least) {
      var m := if c.Floor < d.Floor then c.Floor + 1 else d.Floor + 1;
      assert Meet(c, d, m) && SomeMeet(nums, m);
    }
    if m :| m >= least && SomeMeet(nums, m) {
      var c, d :| c in nums && d in nums && Meet(c, d, m);
      assert Crowded(c, d, least);
    }
  }

  lemma NearFraction(c: real, k: int)
    ensures (c + k as real).Floor == c.Floor + k && Fraction(c + k as real) == Fraction(c)
  {}

  /** The numbers near a constant have its fraction, and are at most a whole step away. */
  lemma NearAt(nums: set<real>, x: real)
    ensures x in Near(nums, 1.0) <==>
            x >= 0.0 && exists c :: c in nums && Fraction(c) == Fraction(x) && -1 <= x.Floor - c.Floor <= 1
  {
    if x in Near(nums, 1.0) {
      var c :| c in nums && (x == c - 1.0 || x == c || x == c + 1.0);
      NearFraction(c, -1);
      NearFraction(c, 1);
    }
    if x >= 0.0 {
      forall c | c in nums && Fraction(c) == Fraction(x) && -1 <= x.Floor - c.Floor <= 1 ensures x in Near(nums, 1.0) {
        assert x == c + (x.Floor - c.Floor) as real;
      }
    }
  }

  lemma FractionOf(c: real, m: int)
    ensures var x := m as real + Fraction(c); x.Floor == m && Fraction(x) == Fraction(c)
  {}

  lemma {:induction false} RoundsTwice(nums: set<real>, m: nat)
    ensures (exists x, y :: x in Near(nums, 1.0) && y in Near(nums, 1.0) && x != y && x.Floor == m == y.Floor) <==> SomeMeet(nums, m)
  {
    hide Near;
    if x, y :| x in Near(nums, 1.0) && y in Near(nums, 1.0) && x != y && x.Floor == m == y.Floor {
      NearAt(nums, x);
      NearAt(nums, y);
      var c :| c in nums && Fraction(c) == Fraction(x) && -1 <= x.Floor - c.Floor <= 1;
      var d :| d in nums && Fraction(d) == Fraction(y) && -1 <= y.Floor - d.Floor <= 1;
      assert Meet(c, d, m);
    }
    if SomeMeet(nums, m) {
      var c, d :| c in nums && d in nums && Meet(c, d, m);
      var x, y := m as real + Fraction(c), m as real + Fraction(d);
      FractionOf(c, m);
      FractionOf(d, m);
      NearAt(nums, x);
      NearAt(nums, y);
    }
  }

  /** v stands in vals twice. */
  ghost predicate Twice(vals: seq<Value>, v: Value) {
    exists i, j :: 0 <= i < j < |vals| && vals[i] == v && vals[j] == v
  }

  lemma OnceEach(vals: seq<Value>)
    ensures NoDup(vals) <==> forall v :: !Twice(vals, v)
  {
    if !NoDup(vals) {
      var i, j :| 0 <= i < j < |vals| && vals[i] == vals[j];
      assert Twice(vals, vals[i]);
    }
  }

  lemma {:induction false} CountTwice(t: Subject, f: string, v: Value)
    requires f in t.kinds && t.kinds[f].KInt?
    ensures Twice(TriesFor(t, f), v) <==> v.VInt? && v.i >= 0 && SomeMeet(Constants(t, f), v.i)
  {
    hide Constants, Literals, Rising, Near, SomeMeet;
    var nums, vals := Constants(t, f), TriesFor(t, f);
    var near := Rising(Near(nums, 1.0));
    RisingMeans(Near(nums, 1.0));
    RisingOnce(Near(nums, 1.0));
    if Twice(vals, v) {
      var i, j :| 0 <= i < j < |vals| && vals[i] == v && vals[j] == v;
      assert near[i] in Near(nums, 1.0) && near[j] in Near(nums, 1.0);
      NearAt(nums, near[i]);
      RoundsTwice(nums, v.i);
    }
    if v.VInt? && v.i >= 0 && SomeMeet(nums, v.i) {
      RoundsTwice(nums, v.i);
      var x, y :| x in Near(nums, 1.0) && y in Near(nums, 1.0) && x != y && x.Floor == v.i == y.Floor;
      var i :| 0 <= i < |near| && near[i] == x;
      var j :| 0 <= j < |near| && near[j] == y;
      assert vals[i] == v && vals[j] == v;
      assert i < j || j < i;
    }
  }

  lemma {:induction false} OthersOnce(t: Subject, f: string)
    requires f in t.kinds && !t.kinds[f].KInt?
    ensures TriedOnce(t, f)
  {
    hide Constants, Literals, Rising, Near;
    RisingOnce(Near(Constants(t, f), 0.001));
    NamesOnce(Literals(t, f));
  }

  lemma NamesOnce(strs: set<string>)
    ensures NoDup(SortedNames(strs))
  {
    StringLessWeak();
    StrictNoDup(StringLess, SortedNames(strs));
  }

  /** A fact is given no value twice exactly when it is no count, or no two of its constants are close and differ in
      their fractions. */
  lemma {:induction false} TriedOnceExactly(t: Subject, f: string)
    requires f in t.kinds
    ensures TriedOnce(t, f) <==> Apart(t, f, 0)
  {
    hide TriesFor, Constants, Crowded, SomeMeet, Twice;
    if !t.kinds[f].KInt? {
      OthersOnce(t, f);
    } else {
      OnceEach(TriesFor(t, f));
      forall v { CountTwice(t, f, v); }
      CrowdedMeets(Constants(t, f), 0);
      if m :| m >= 0 && SomeMeet(Constants(t, f), m) { assert Twice(TriesFor(t, f), VInt(m)); }
    }
  }

  /** Compared with whole numbers only, a count is. */
  lemma WholeTriedOnce(t: Subject, f: string)
    requires f in t.kinds && forall c :: c in Constants(t, f) ==> c == c.Floor as real
    ensures TriedOnce(t, f)
  {
    hide TriesFor, Constants;
    TriedOnceExactly(t, f);
  }

  /** A count and what it is compared with: one rule for each constant. */
  function Counted(limits: seq<Value>, num: Numerals): Subject {
    Subject(map["n" := KInt], seq(|limits|, i requires 0 <= i < |limits| => Cmp("", "n", Gt, limits[i])), [], "up", "c", k => Unset, num)
  }

  /** Compared with a half alone, a count is given each value once; with one beside it, the number above the half rounds
      down onto it. */
  lemma {:induction false} HalfTriedTwice(num: Numerals)
    ensures PlainSubject(Counted([VNum(0.5)], num)) && TriedOnce(Counted([VNum(0.5)], num), "n")
    ensures PlainSubject(Counted([VNum(0.5), VInt(1)], num)) && !TriedOnce(Counted([VNum(0.5), VInt(1)], num), "n")
  {
    var half, one := Cmp("", "n", Gt, VNum(0.5)), Cmp("", "n", Gt, VInt(1));
    var t, u := Counted([VNum(0.5)], num), Counted([VNum(0.5), VInt(1)], num);
    assert Predicates(t.rules, t.states) == [half] && [half][..0] == [];
    assert Predicates(u.rules, u.states) == [half, one] && [half, one][..1] == [half];
    assert AllNums(t, [half], "n") == {0.5};
    assert Constants(t, "n") == {0.5};
    assert AllNums(u, [half], "n") == {0.5};
    assert AllNums(u, [half, one], "n") == AllNums(u, [half], "n") + NumsIn(u, one, "n");
    assert Constants(u, "n") == {0.5, 1.0};
    hide TriesFor;
    TriedOnceExactly(t, "n");
    TriedOnceExactly(u, "n");
    assert Crowded(0.5, 1.0, 0);
  }

  // ---------------------------------------------------------------- what is tried, in the predicates' own terms

  /** The comparison gives fact f the constant c to be tried around: a number, or a var that is one; and zero and one to each
      of two facts compared with each other. */
  function GivesConstant(t: Subject, f: string, c: real): Node -> bool {
    (n: Node) => n.Cmp? && n.component == "" && n.fact in t.kinds &&
      ((f == n.fact && n.value.VInt? && n.value.i as real == c) || (f == n.fact && n.value.VNum? && n.value.r == c) ||
       (n.value.VStr? && !t.kinds[n.fact].KStr? &&
        ((n.value.s in t.kinds && (f == n.fact || f == n.value.s) && (c == 0.0 || c == 1.0)) ||
         (n.value.s !in t.kinds && f == n.fact && t.vars(n.value.s) == Number(c)))))
  }

  /** The comparison is of the string fact f with the word s. */
  function GivesWord(t: Subject, f: string, s: string): Node -> bool {
    (n: Node) => n.Cmp? && n.component == "" && n.fact == f && f in t.kinds && t.kinds[f].KStr? && n.value == VStr(s)
  }

  /** The comparison is of two facts, f one of them, neither a string on the left. */
  function ComparesWith(t: Subject, f: string): Node -> bool {
    (n: Node) => n.Cmp? && n.component == "" && n.value.VStr? && n.fact in t.kinds && !t.kinds[n.fact].KStr? &&
      n.value.s in t.kinds && (f == n.fact || f == n.value.s)
  }

  /** A rule of t, or the predicate of one of its states, holds such a comparison. */
  ghost predicate Compared(t: Subject, p: Node -> bool) {
    (exists i :: 0 <= i < |t.rules| && Somewhere(t.rules[i], p)) ||
    (exists i :: 0 <= i < |t.states| && t.states[i].when.Some? && Somewhere(t.states[i].when.value, p))
  }

  lemma {:induction false} NumsInMean(t: Subject, n: Node, f: string)
    ensures forall c :: c in NumsIn(t, n, f) <==> Somewhere(n, GivesConstant(t, f, c))
    ensures forall s :: s in StrsIn(t, n, f) <==> Somewhere(n, GivesWord(t, f, s))
    ensures RelativeIn(t, n, f) <==> Somewhere(n, ComparesWith(t, f))
  {
    hide Somewhere;
    SomewhereMeans(n, ComparesWith(t, f));
    forall c { SomewhereMeans(n, GivesConstant(t, f, c)); }
    forall s { SomewhereMeans(n, GivesWord(t, f, s)); }
    match n
    case And(l, r) => NumsInMean(t, l, f); NumsInMean(t, r, f);
    case Or(l, r) => NumsInMean(t, l, f); NumsInMean(t, r, f);
    case Cmp(_, _, _, _) =>
  }

  lemma {:induction false} AllNumsMean(t: Subject, ns: seq<Node>, f: string)
    ensures forall c :: c in AllNums(t, ns, f) <==> exists n :: n in ns && c in NumsIn(t, n, f)
    ensures forall s :: s in AllStrs(t, ns, f) <==> exists n :: n in ns && s in StrsIn(t, n, f)
    ensures AnyRelative(t, ns, f) <==> exists n :: n in ns && RelativeIn(t, n, f)
  {
    hide NumsIn, StrsIn, RelativeIn;
    if ns != [] {
      var init, last := ns[..|ns| - 1], ns[|ns| - 1];
      AllNumsMean(t, init, f);
      assert ns == init + [last];
      assert forall n :: n in ns <==> n in init || n == last;
      assert last in ns;
      forall c | c in AllNums(t, ns, f) ensures exists n :: n in ns && c in NumsIn(t, n, f) {
        if c in AllNums(t, init, f) { var n :| n in init && c in NumsIn(t, n, f); }
      }
      forall s | s in AllStrs(t, ns, f) ensures exists n :: n in ns && s in StrsIn(t, n, f) {
        if s in AllStrs(t, init, f) { var n :| n in init && s in StrsIn(t, n, f); }
      }
    }
  }

  lemma {:induction false} PredicatesMean(rules: seq<Node>, states: seq<StateDef>)
    ensures forall n :: n in Predicates(rules, states) <==>
              n in rules || exists i :: 0 <= i < |states| && states[i].when == Some(n)
  {
    if states != [] {
      var init := states[..|states| - 1];
      PredicatesMean(rules, init);
      assert forall i :: 0 <= i < |init| ==> init[i] == states[i];
    }
  }

  /** The constants and words of a fact are those its comparisons give it, and it is relative when one is with a fact. */
  lemma {:induction false} ConstantsMean(t: Subject, f: string)
    ensures forall c :: c in Constants(t, f) <==> Compared(t, GivesConstant(t, f, c))
    ensures forall s :: s in Literals(t, f) <==> Compared(t, GivesWord(t, f, s))
    ensures Relative(t, f) <==> Compared(t, ComparesWith(t, f))
  {
    hide AllNums, AllStrs, AnyRelative, Predicates, NumsIn, StrsIn, RelativeIn, Somewhere, GivesConstant, GivesWord, ComparesWith;
    var ns := Predicates(t.rules, t.states);
    AllNumsMean(t, ns, f);
    PredicatesMean(t.rules, t.states);
    forall n { NumsInMean(t, n, f); }
    forall p: Node -> bool ensures Compared(t, p) <==> exists n :: n in ns && Somewhere(n, p) {
      if i :| 0 <= i < |t.rules| && Somewhere(t.rules[i], p) { assert t.rules[i] in ns; }
      if i :| 0 <= i < |t.states| && t.states[i].when.Some? && Somewhere(t.states[i].when.value, p) { assert t.states[i].when.value in ns; }
      if n :| n in ns && Somewhere(n, p) {
        if n in t.rules { var i :| 0 <= i < |t.rules| && t.rules[i] == n; }
      }
    }
  }

  /** x is a constant of f, or one step above or below it, and not below zero. */
  ghost predicate IsNear(t: Subject, f: string, step: real, x: real) {
    x >= 0.0 && exists c :: Compared(t, GivesConstant(t, f, c)) && (x == c || x == c - step || x == c + step)
  }

  /** xs are those numbers, rising. */
  ghost predicate Around(t: Subject, f: string, step: real, xs: seq<real>) {
    (forall i, j :: 0 <= i < j < |xs| ==> xs[i] < xs[j]) && forall x :: x in xs <==> IsNear(t, f, step, x)
  }

  lemma {:induction false} RisingRises(s: set<real>)
    ensures forall i, j :: 0 <= i < j < |Rising(s)| ==> Rising(s)[i] < Rising(s)[j]
    decreases |s|
  {
    if s != {} {
      LowestReal(s);
      var x :| x in s && forall y :: y in s ==> x <= y;
      RisingRises(s - {x});
      RisingMeans(s - {x});
      var rest := Rising(s - {x});
      assert Rising(s) == [x] + rest;
      forall j | 0 <= j < |rest| ensures x < rest[j] { assert rest[j] in rest; }
    }
  }

  /** What is tried for a fact: both booleans, true first; the words it is compared with, in order; for a count the numbers
      around its constants by a step of one, rounded down, and for any other fact those by a thousandth, both rising. */
  lemma {:induction false} TriesMean(t: Subject, f: string)
    requires f in t.kinds
    ensures t.kinds[f].KBool? ==> TriesFor(t, f) == [VBool(true), VBool(false)]
    ensures t.kinds[f].KStr? && (exists s :: Compared(t, GivesWord(t, f, s))) ==>
              (forall v :: v in TriesFor(t, f) <==> v.VStr? && Compared(t, GivesWord(t, f, v.s))) &&
              forall i, j :: 0 <= i < j < |TriesFor(t, f)| ==>
                TriesFor(t, f)[i].VStr? && TriesFor(t, f)[j].VStr? && StringLess(TriesFor(t, f)[i].s, TriesFor(t, f)[j].s)
    ensures t.kinds[f].KInt? ==>
              exists xs: seq<real> :: Around(t, f, 1.0, xs) && |xs| == |TriesFor(t, f)| &&
                (forall i :: 0 <= i < |xs| ==> TriesFor(t, f)[i] == VInt(xs[i].Floor))
    ensures t.kinds[f].KNum? || (t.kinds[f].KStr? && forall s :: !Compared(t, GivesWord(t, f, s))) ==>
              exists xs: seq<real> :: Around(t, f, 0.001, xs) && |xs| == |TriesFor(t, f)| &&
                (forall i :: 0 <= i < |xs| ==> TriesFor(t, f)[i] == VNum(xs[i]))
  {
    hide Constants, Literals, Rising, Compared, GivesConstant, GivesWord, StringLess;
    var nums, strs, vals := Constants(t, f), Literals(t, f), TriesFor(t, f);
    ConstantsMean(t, f);
    forall step: real ensures Around(t, f, step, Rising(Near(nums, step))) {
      RisingRises(Near(nums, step));
      RisingMeans(Near(nums, step));
    }
    if t.kinds[f].KStr? && strs != {} {
      var names := SortedNames(strs);
      forall v ensures v in vals <==> v.VStr? && v.s in strs {
        if v in vals {
          var i :| 0 <= i < |vals| && vals[i] == v;
          assert names[i] in names;
        }
        if v.VStr? && v.s in strs {
          assert v.s in names;
          var i :| 0 <= i < |names| && names[i] == v.s;
          assert vals[i] == v;
        }
      }
    }
  }

  /** The constants and literals read off the predicates, fact by fact. */
  class Reader {
    const t: Subject
    var nums: map<string, set<real>>
    var strs: map<string, set<string>>
    var relative: set<string>

    constructor (t: Subject)
      ensures this.t == t && (forall f :: Nums(f) == {}) && (forall f :: Strs(f) == {}) && relative == {}
    {
      this.t, nums, strs, relative := t, map[], map[], {};
    }

    function Nums(f: string): set<real>
      reads this
    {
      if f in nums then nums[f] else {}
    }

    function Strs(f: string): set<string>
      reads this
    {
      if f in strs then strs[f] else {}
    }

    /** What has been read is what ns compares facts with. */
    ghost predicate HasRead(ns: seq<Node>)
      reads this
    {
      forall f :: Nums(f) == AllNums(t, ns, f) && Strs(f) == AllStrs(t, ns, f) && (f in relative <==> AnyRelative(t, ns, f))
    }

    method AddNum(f: string, x: real)
      modifies this`nums
      ensures forall g :: Nums(g) == old(Nums(g)) + if g == f then {x} else {}
    {
      nums := nums[f := Nums(f) + {x}];
    }

    method Walk(n: Node)
      modifies this`nums, this`strs, this`relative
      ensures forall f :: Nums(f) == old(Nums(f)) + NumsIn(t, n, f)
      ensures forall f :: Strs(f) == old(Strs(f)) + StrsIn(t, n, f)
      ensures forall f :: f in relative <==> f in old(relative) || RelativeIn(t, n, f)
    {
      match n
      case And(l, r) => Walk(l); Walk(r);
      case Or(l, r) => Walk(l); Walk(r);
      case Cmp(c, fact, _, value) =>
        if c != "" || fact !in t.kinds { return; }
        match value {
          case VInt(i) => AddNum(fact, i as real);
          case VNum(r) => AddNum(fact, r);
          case VStr(s) =>
            if t.kinds[fact].KStr? {
              strs := strs[fact := Strs(fact) + {s}];
            } else if s in t.kinds {
              AddNum(fact, 0.0);
              AddNum(s, 0.0);
              AddNum(s, 1.0);
              AddNum(fact, 1.0);
              relative := relative + {s, fact};
            } else if t.vars(s).Number? {
              AddNum(fact, t.vars(s).r);
            }
          case _ =>
        }
    }
  }

  type Candidates = map<string, seq<Value>>

  /** cands holds, for every fact with anything to try, what to try. */
  ghost predicate AreCandidates(t: Subject, cands: Candidates) {
    && (forall f :: f in cands <==> f in t.kinds && TriesFor(t, f) != [])
    && (forall f :: f in cands ==> cands[f] == TriesFor(t, f))
  }

  method ReadRules(r: Reader)
    requires (forall f :: r.Nums(f) == {}) && (forall f :: r.Strs(f) == {}) && r.relative == {}
    modifies r
    ensures r.HasRead(r.t.rules)
  {
    var ns := r.t.rules;
    assert ns[..|ns|] == ns;
    for i := 0 to |ns|
      invariant r.HasRead(ns[..i])
    {
      assert ns[..i + 1] == ns[..i] + [ns[i]];
      ReadOne(r, ns[..i], ns[i]);
    }
  }

  lemma ReadOneMore(t: Subject, ns: seq<Node>, n: Node)
    ensures forall f :: AllNums(t, ns + [n], f) == AllNums(t, ns, f) + NumsIn(t, n, f)
    ensures forall f :: AllStrs(t, ns + [n], f) == AllStrs(t, ns, f) + StrsIn(t, n, f)
    ensures forall f :: AnyRelative(t, ns + [n], f) <==> AnyRelative(t, ns, f) || RelativeIn(t, n, f)
  {
    assert (ns + [n])[..|ns|] == ns;
  }

  lemma PredicatesOne(rules: seq<Node>, states: seq<StateDef>, i: nat)
    requires i < |states|
    ensures Predicates(rules, states[..i + 1]) ==
            if states[i].when.Some? then Predicates(rules, states[..i]) + [states[i].when.value] else Predicates(rules, states[..i])
  {
    assert states[..i + 1][..i] == states[..i];
  }

  method ReadStates(r: Reader)
    requires r.HasRead(r.t.rules)
    modifies r
    ensures forall f :: r.Nums(f) == Constants(r.t, f) && r.Strs(f) == Literals(r.t, f) && (f in r.relative <==> Relative(r.t, f))
  {
    var states, rules := r.t.states, r.t.rules;
    assert Predicates(rules, states[..0]) == rules;
    assert states[..|states|] == states;
    for i := 0 to |states|
      invariant r.HasRead(Predicates(rules, states[..i]))
    {
      hide Predicates, AllNums, AllStrs, AnyRelative;
      PredicatesOne(rules, states, i);
      if states[i].when.Some? { ReadOne(r, Predicates(rules, states[..i]), states[i].when.value); }
    }
  }

  method ReadOne(r: Reader, ghost ns: seq<Node>, n: Node)
    requires r.HasRead(ns)
    modifies r
    ensures r.HasRead(ns + [n])
  {
    hide AllNums, AllStrs, AnyRelative, NumsIn, StrsIn, RelativeIn;
    ReadOneMore(r.t, ns, n);
    r.Walk(n);
  }

  /** What to try for each fact, and which facts are compared with one another. */
  method FindCandidates(t: Subject) returns (cands: Candidates, relative: set<string>)
    ensures AreCandidates(t, cands)
    ensures forall f :: f in cands ==> (NoDup(cands[f]) <==> Apart(t, f, 0))
    ensures forall f :: f in relative <==> Relative(t, f)
  {
    hide Tries, AllNums, AllStrs, AnyRelative, Predicates, Apart;
    var r := new Reader(t);
    ReadRules(r);
    ReadStates(r);
    cands := map[];
    var left := t.kinds.Keys;
    while left != {}
      invariant left <= t.kinds.Keys
      invariant forall f :: f in cands <==> f in t.kinds && f !in left && TriesFor(t, f) != []
      invariant forall f :: f in cands ==> cands[f] == TriesFor(t, f)
      decreases left
    {
      var f :| f in left;
      left := left - {f};
      var vals := Tries(t.kinds[f], r.Nums(f), r.Strs(f));
      assert vals == TriesFor(t, f);
      if |vals| > 0 { cands := cands[f := vals]; }
    }
    relative := r.relative;
    forall f | f in cands ensures NoDup(cands[f]) <==> Apart(t, f, 0) { TriedOnceExactly(t, f); }
  }

  // ---------------------------------------------------------------- nothing between the candidates is missed

  /** n compares facts of its own component with literals of their kind, numbers not below zero. */
  predicate Plain(t: Subject, n: Node) {
    match n
    case And(l, r) => Plain(t, l) && Plain(t, r)
    case Or(l, r) => Plain(t, l) && Plain(t, r)
    case Cmp(c, fact, _, v) =>
      c == "" && fact != "state" && fact in t.kinds &&
      match t.kinds[fact]
      case KInt => (v.VInt? && v.i >= 0) || (v.VNum? && v.r >= 0.0)
      case KBool => v.VBool?
      case KStr => v.VStr?
      case KNum => false
  }

  ghost predicate PlainSubject(t: Subject) {
    forall n :: n in Predicates(t.rules, t.states) ==> Plain(t, n)
  }

  /** a gives every fact that is tried a value of its kind: a count, a boolean, one of the strings named. */
  ghost predicate InDomain(t: Subject, cands: Candidates, a: Assignment) {
    forall f :: f in cands ==> f in t.kinds && f in a && OfKind(t, f, a[f])
  }

  predicate OfKind(t: Subject, f: string, v: Value)
    requires f in t.kinds
  {
    match t.kinds[f]
    case KInt => v.VInt? && v.i >= 0
    case KBool => v.VBool?
    case KStr => v.VStr? && v.s in Literals(t, f)
    case KNum => false
  }

  /** v is of f's kind, whether or not the type names it. */
  predicate Fits(t: Subject, f: string, v: Value)
    requires f in t.kinds
  {
    match t.kinds[f]
    case KInt => v.VInt? && v.i >= 0
    case KBool => v.VBool?
    case KStr => v.VStr?
    case KNum => false
  }

  /** A word the type does not name, and no number in writing. */
  predicate Unnamed(t: Subject, f: string, v: Value) {
    v.VStr? && v.s !in Literals(t, f) && t.num.parse(v.s).None?
  }

  /** No comparison of the type tells u from v. */
  ghost predicate SameView(t: Subject, f: string, u: Value, v: Value) {
    if u.VInt? && v.VInt? then SameOrder(Constants(t, f), u.i, v.i) else u == v || (Unnamed(t, f, u) && Unnamed(t, f, v))
  }

  ghost predicate SameOrder(nums: set<real>, x: int, y: int) {
    forall c :: c in nums ==> (x as real < c <==> y as real < c) && (x as real == c <==> y as real == c)
  }

  lemma HighestReal(s: set<real>)
    requires s != {}
    ensures exists x :: x in s && forall y :: y in s ==> y <= x
    decreases |s|
  {
    SomeReal(s);
    var x :| x in s;
    if s != {x} {
      HighestReal(s - {x});
      var y :| y in s - {x} && forall z :: z in s - {x} ==> z <= y;
      var most := if x <= y then y else x;
      forall z | z in s ensures z <= most { assert z == x || z in s - {x}; }
    }
  }

  /** Just above the highest constant below x. */
  lemma {:induction false} JustAbove(nums: set<real>, x: nat, c: real)
    requires c in nums && c < x as real && x as real !in nums && c >= 0.0
    requires forall d :: d in nums && d < x as real ==> d <= c
    ensures c + 1.0 in Near(nums, 1.0) && SameOrder(nums, x, (c + 1.0).Floor)
  {
    var y := (c + 1.0).Floor;
    FloorBetween(c, x);
    forall d | d in nums ensures (x as real < d <==> y as real < d) && (x as real == d <==> y as real == d) {}
  }

  lemma FloorBetween(c: real, x: int)
    requires c < x as real
    ensures c < (c + 1.0).Floor as real <= x as real
  {
    IntBetween(c, (c + 1.0).Floor, x);
  }

  lemma IntBetween(c: real, f: int, x: int)
    requires f as real <= c + 1.0 < f as real + 1.0 && c < x as real
    ensures c < f as real <= x as real
  {
    assert f >= x + 1 ==> f as real >= (x + 1) as real;
  }

  /** Just below the lowest constant, when x is below them all. */
  lemma {:induction false} JustBelow(nums: set<real>, x: nat, c: real) returns (z: real)
    requires c in nums && x as real < c && forall d :: d in nums ==> c <= d
    ensures z in Near(nums, 1.0) && SameOrder(nums, x, z.Floor)
  {
    z := if c - 1.0 >= 0.0 then c - 1.0 else c;
    var y := z.Floor;
    assert y as real <= z < (y + 1) as real;
    if c - 1.0 >= 0.0 {
      assert y as real < c;
    } else {
      assert x == 0 && y == 0;
    }
    forall d | d in nums ensures (x as real < d <==> y as real < d) && (x as real == d <==> y as real == d) { assert c <= d; }
  }

  /** Around the constants there is a number that stands to each of them as x does. */
  lemma {:induction false} Neighbour(nums: set<real>, x: nat) returns (z: real)
    requires nums != {} && forall c :: c in nums ==> c >= 0.0
    ensures z in Near(nums, 1.0) && SameOrder(nums, x, z.Floor)
  {
    if x as real in nums {
      z := x as real;
      return;
    }
    hide SameOrder, Near;
    var below := set c | c in nums && c < x as real;
    if below != {} {
      HighestReal(below);
      var c :| c in below && forall d :: d in below ==> d <= c;
      z := c + 1.0;
      forall d | d in nums && d < x as real ensures d <= c { assert d in below; }
      JustAbove(nums, x, c);
    } else {
      LowestReal(nums);
      var c :| c in nums && forall d :: d in nums ==> c <= d;
      assert c !in below;
      z := JustBelow(nums, x, c);
    }
  }

  lemma {:induction false} PlainConstants(t: Subject, n: Node, fact: string)
    requires Plain(t, n)
    ensures forall c :: c in NumsIn(t, n, fact) ==> c >= 0.0
    ensures fact in t.kinds && t.kinds[fact].KNum? ==> NumsIn(t, n, fact) == {}
    ensures fact in t.kinds && t.kinds[fact].KStr? ==> NumsIn(t, n, fact) == {}
  {
    match n
    case And(l, r) => PlainConstants(t, l, fact); PlainConstants(t, r, fact);
    case Or(l, r) => PlainConstants(t, l, fact); PlainConstants(t, r, fact);
    case Cmp(_, _, _, _) =>
  }

  lemma {:induction false} AllConstants(t: Subject, ns: seq<Node>, fact: string)
    requires forall n :: n in ns ==> Plain(t, n)
    ensures forall c :: c in AllNums(t, ns, fact) ==> c >= 0.0
    ensures fact in t.kinds && (t.kinds[fact].KNum? || t.kinds[fact].KStr?) ==> AllNums(t, ns, fact) == {}
    ensures forall n :: n in ns ==> NumsIn(t, n, fact) <= AllNums(t, ns, fact) && StrsIn(t, n, fact) <= AllStrs(t, ns, fact)
  {
    if ns != [] {
      var init, last := ns[..|ns| - 1], ns[|ns| - 1];
      assert ns == init + [last];
      AllConstants(t, init, fact);
      PlainConstants(t, last, fact);
    }
  }

  /** For every value of its kind a fact may have, one of those tried looks the same to every comparison. */
  lemma {:induction false} Representative(t: Subject, cands: Candidates, f: string, u: Value) returns (v: Value)
    requires PlainSubject(t) && AreCandidates(t, cands) && f in cands && OfKind(t, f, u)
    ensures v in cands[f] && SameView(t, f, u, v)
  {
    hide Predicates, Plain;
    var nums := Constants(t, f);
    AllConstants(t, Predicates(t.rules, t.states), f);
    match t.kinds[f]
    case KBool => v := u; assert v in TriesFor(t, f);
    case KStr =>
      v := u;
      var names := SortedNames(Literals(t, f));
      var i :| 0 <= i < |names| && names[i] == u.s;
      assert TriesFor(t, f)[i] == v;
    case KInt =>
      RisingMeans(Near(nums, 1.0));
      NearNone();
      var z := Neighbour(nums, u.i);
      v := VInt(z.Floor);
      var near := Rising(Near(nums, 1.0));
      var i :| 0 <= i < |near| && near[i] == z;
      assert TriesFor(t, f)[i] == v;
  }

  lemma NearNone()
    ensures Near({}, 1.0) == {} && Rising({}) == []
  {}

  /** What is tried is of its fact's kind. */
  lemma {:induction false} TriedOfKind(t: Subject, f: string, v: Value)
    requires PlainSubject(t) && f in t.kinds && v in TriesFor(t, f)
    ensures OfKind(t, f, v)
  {
    hide Predicates, Plain;
    AllConstants(t, Predicates(t.rules, t.states), f);
    var near := Near(Constants(t, f), if t.kinds[f].KInt? then 1.0 else 0.001);
    RisingMeans(near);
    var i :| 0 <= i < |TriesFor(t, f)| && TriesFor(t, f)[i] == v;
    if t.kinds[f].KInt? {
      assert Rising(near)[i] in near;
    } else if t.kinds[f].KStr? && Literals(t, f) != {} {
      assert SortedNames(Literals(t, f))[i] in Literals(t, f);
    }
  }

  // ---------------------------------------------------------------- the same facts to every predicate

  /** cands are tried one value a fact. */
  predicate Tried(cands: Candidates, b: Assignment) {
    b.Keys == cands.Keys && forall f :: f in cands ==> b[f] in cands[f]
  }

  /** a and b look the same wherever something is tried. */
  ghost predicate LooksSame(t: Subject, cands: Candidates, a: Assignment, b: Assignment) {
    forall f :: f in cands ==> f in a && f in b && f in t.kinds && Fits(t, f, a[f]) && Fits(t, f, b[f]) && SameView(t, f, a[f], b[f])
  }

  /** Every fact a plain predicate reads has something to try. */
  lemma CmpIsTried(t: Subject, cands: Candidates, n: Node)
    requires AreCandidates(t, cands) && n.Cmp? && Plain(t, n)
    requires Gathered(t, n)
    ensures n.fact in cands
  {
    hide Predicates;
    var f := n.fact;
    match t.kinds[f]
    case KBool =>
    case KStr =>
      assert n.value.s in Literals(t, f);
      assert n.value.s in SortedNames(Literals(t, f));
    case KInt =>
      var c := if n.value.VInt? then n.value.i as real else n.value.r;
      assert c in Constants(t, f);
      RisingMeans(Near(Constants(t, f), 1.0));
      assert c in Near(Constants(t, f), 1.0);
  }

  /** What n compares facts with has been gathered. */
  ghost predicate Gathered(t: Subject, n: Node) {
    forall f :: NumsIn(t, n, f) <= Constants(t, f) && StrsIn(t, n, f) <= Literals(t, f)
  }

  lemma GatheredParts(t: Subject, n: Node, l: Node, r: Node)
    requires Gathered(t, n) && (n == And(l, r) || n == Or(l, r))
    ensures Gathered(t, l) && Gathered(t, r)
  {
    forall f ensures NumsIn(t, l, f) + NumsIn(t, r, f) <= Constants(t, f) && StrsIn(t, l, f) + StrsIn(t, r, f) <= Literals(t, f) {
      assert NumsIn(t, n, f) <= Constants(t, f);
    }
  }

  lemma {:induction false} EvalSame(t: Subject, cands: Candidates, n: Node, a: Assignment, b: Assignment)
    requires AreCandidates(t, cands) && Plain(t, n) && LooksSame(t, cands, a, b)
    requires Gathered(t, n)
    ensures Eval(n, CtxUnder(t, a)) == Eval(n, CtxUnder(t, b))
  {
    hide Constants, Literals, AreCandidates;
    match n
    case And(l, r) => GatheredParts(t, n, l, r); EvalSame(t, cands, l, a, b); EvalSame(t, cands, r, a, b);
    case Or(l, r) => GatheredParts(t, n, l, r); EvalSame(t, cands, l, a, b); EvalSame(t, cands, r, a, b);
    case Cmp(_, fact, op, v) =>
      CmpIsTried(t, cands, n);
      if t.kinds[fact].KInt? {
        var c := if v.VInt? then v.i as real else v.r;
        assert c in NumsIn(t, n, fact) && c in Constants(t, fact);
        assert CompareFloats(op, a[fact].i as real, c) == CompareFloats(op, b[fact].i as real, c);
      } else if t.kinds[fact].KStr? {
        assert v.s in StrsIn(t, n, fact) && v.s in Literals(t, fact);
      }
  }

  lemma {:induction false} StateSame(states: seq<StateDef>, c: Ctx, d: Ctx)
    requires forall i :: 0 <= i < |states| && states[i].when.Some? ==> Eval(states[i].when.value, c) == Eval(states[i].when.value, d)
    ensures StateUnder(states, c) == StateUnder(states, d)
  {
    if states != [] { StateSame(states[1..], c, d); }
  }

  lemma {:induction false} PredicatesHold(rules: seq<Node>, states: seq<StateDef>)
    ensures forall n :: n in rules ==> n in Predicates(rules, states)
    ensures forall i :: 0 <= i < |states| && states[i].when.Some? ==> states[i].when.value in Predicates(rules, states)
  {
    if states != [] { PredicatesHold(rules, states[..|states| - 1]); }
  }

  lemma {:induction false} HealthSame(t: Subject, cands: Candidates, a: Assignment, b: Assignment)
    requires PlainSubject(t) && AreCandidates(t, cands) && LooksSame(t, cands, a, b)
    ensures HealthOf(t, a) == HealthOf(t, b)
  {
    hide Eval, Predicates, AreCandidates, LooksSame, Plain;
    var ns := Predicates(t.rules, t.states);
    PredicatesHold(t.rules, t.states);
    forall n | n in ns ensures Eval(n, CtxUnder(t, a)) == Eval(n, CtxUnder(t, b)) {
      forall f { AllConstants(t, ns, f); }
      assert Gathered(t, n);
      EvalSame(t, cands, n, a, b);
    }
    StateSame(t.states, CtxUnder(t, a), CtxUnder(t, b));
    assert forall i :: 0 <= i < |t.rules| ==> t.rules[i] in t.rules;
  }

  ghost function Stand(t: Subject, cands: Candidates, f: string, u: Value): (v: Value)
    requires PlainSubject(t) && AreCandidates(t, cands) && f in cands && OfKind(t, f, u)
    ensures v in cands[f] && SameView(t, f, u, v)
  {
    assert exists v :: v in cands[f] && SameView(t, f, u, v) by {
      var w := Representative(t, cands, f, u);
    }
    var v :| v in cands[f] && SameView(t, f, u, v); v
  }

  /** The tried assignments miss nothing: whatever values the facts have, some tried one gives the same state and health. */
  lemma {:induction false} TriesAreEnough(t: Subject, cands: Candidates, a: Assignment)
    requires PlainSubject(t) && AreCandidates(t, cands) && InDomain(t, cands, a)
    ensures exists b :: Tried(cands, b) && HealthOf(t, b) == HealthOf(t, a)
  {
    hide PlainSubject, HealthOf, SameView;
    var b := map f | f in cands :: Stand(t, cands, f, a[f]);
    assert Tried(cands, b);
    TriedInDomain(t, cands, b);
    assert LooksSame(t, cands, a, b);
    HealthSame(t, cands, a, b);
  }

  /** ... and none of them is outside what the facts may be. */
  lemma {:induction false} TriedInDomain(t: Subject, cands: Candidates, b: Assignment)
    requires PlainSubject(t) && AreCandidates(t, cands) && Tried(cands, b)
    ensures InDomain(t, cands, b)
  {
    hide PlainSubject;
    forall f | f in cands ensures OfKind(t, f, b[f]) { TriedOfKind(t, f, b[f]); }
  }

  // ---------------------------------------------------------------- every combination, once

  const MAX_ASSIGNMENTS: nat := 4096

  ghost predicate NonEmpty(cands: Candidates, names: seq<string>) {
    forall n :: n in names ==> n in cands && cands[n] != []
  }

  /** How many combinations there are. */
  function Combos(cands: Candidates, names: seq<string>): (n: nat)
    requires NonEmpty(cands, names)
    ensures n >= 1
  {
    if names == [] then 1
    else
      ProductAtLeast(|cands[names[0]]|, Combos(cands, names[1..]));
      |cands[names[0]]| * Combos(cands, names[1..])
  }

  lemma ProductAtLeast(a: nat, b: nat)
    requires a >= 1 && b >= 1
    ensures a * b >= a && a * b >= b
  {}

  /** The lowest digit of i in base d, and what is left above it. */
  function Digit(i: nat, d: nat): (r: nat)
    requires d >= 1
    ensures r < d
  {
    i % d
  }

  function Others(i: nat, d: nat): nat
    requires d >= 1
  {
    i / d
  }

  /** The i-th combination: i read as digits in mixed radix, a name a digit. */
  function Combination(cands: Candidates, names: seq<string>, i: nat): Assignment
    requires NonEmpty(cands, names)
  {
    if names == [] then map[]
    else
      var vals := cands[names[0]];
      Combination(cands, names[1..], Others(i, |vals|))[names[0] := vals[Digit(i, |vals|)]]
  }

  function Sample(cands: Candidates, names: seq<string>, draw: (nat, nat) -> nat, i: nat): Assignment
    requires NonEmpty(cands, names)
  {
    map n | n in names :: Drawn(cands, draw, i, IndexIn(names, n), n)
  }

  /** The value drawn for n, the k-th name, at the i-th try. */
  function Drawn(cands: Candidates, draw: (nat, nat) -> nat, i: nat, k: nat, n: string): Value
    requires n in cands && cands[n] != []
  {
    cands[n][draw(i, k) % |cands[n]|]
  }

  lemma {:induction false} SameQuotient(p: int, m: nat, q: int, r: nat, d: nat)
    requires d * p + m == d * q + r && m < d && r < d
    ensures p == q && m == r
  {
    if p < q { AtMost(p + 1, q, d); }
    if q < p { AtMost(q + 1, p, d); }
  }

  lemma {:induction false} DivModOf(q: nat, d: nat, r: nat)
    requires r < d
    ensures Others(q * d + r, d) == q && Digit(q * d + r, d) == r
  {
    var x := q * d + r;
    SameQuotient(x / d, x % d, q, r, d);
  }

  lemma DivBelow(i: nat, d: nat, n: nat)
    requires d >= 1 && i < d * n
    ensures Others(i, d) < n
  {
    assert i == d * (i / d) + i % d;
    if i / d >= n { AtMost(n, i / d, d); }
  }

  lemma AtMost(a: int, b: int, d: nat)
    requires a <= b
    ensures d * a <= d * b
  {}

  lemma {:induction false} CombinationTried(cands: Candidates, names: seq<string>, i: nat)
    requires NonEmpty(cands, names) && NoDup(names)
    ensures var b := Combination(cands, names, i);
            (forall n :: n in b <==> n in names) && forall n :: n in names ==> b[n] in cands[n]
  {
    if names != [] {
      CombinationTried(cands, names[1..], Others(i, |cands[names[0]]|));
      assert names == [names[0]] + names[1..];
    }
  }

  /** Every way to pick a value for each name comes up. */
  lemma {:induction false} CombinationReached(cands: Candidates, names: seq<string>, b: Assignment) returns (i: nat)
    requires NonEmpty(cands, names) && NoDup(names)
    requires forall n :: n in names ==> n in b && b[n] in cands[n]
    ensures i < Combos(cands, names)
    ensures forall n :: n in names ==> n in Combination(cands, names, i) && Combination(cands, names, i)[n] == b[n]
  {
    if names == [] {
      i := 0;
    } else {
      var vals := cands[names[0]];
      assert names == [names[0]] + names[1..];
      var k :| 0 <= k < |vals| && vals[k] == b[names[0]];
      var q := CombinationReached(cands, names[1..], b);
      i := q * |vals| + k;
      DivModOf(q, |vals|, k);
      BelowProduct(q, |vals|, k, Combos(cands, names[1..]));
    }
  }

  lemma BelowProduct(q: nat, d: nat, r: nat, n: nat)
    requires q < n && r < d
    ensures q * d + r < d * n
  {
    AtMost(q + 1, n, d);
    assert d * (q + 1) == q * d + d;
  }

  /** ... and, where no value is listed twice, only once. */
  lemma {:induction false} CombinationOnce(cands: Candidates, names: seq<string>, i: nat, j: nat)
    requires NonEmpty(cands, names) && NoDup(names) && forall n :: n in names ==> NoDup(cands[n])
    requires i < Combos(cands, names) && j < Combos(cands, names)
    requires SameOn(names, Combination(cands, names, i), Combination(cands, names, j))
    ensures i == j
  {
    if names != [] {
      hide Combination, SameOn, Combos, Digit, Others;
      var d, rest := |cands[names[0]]|, names[1..];
      CombosFirst(cands, names);
      DivBelow(i, d, Combos(cands, rest));
      DivBelow(j, d, Combos(cands, rest));
      SameDigits(cands, names, i, j);
      assert names == [names[0]] + rest;
      CombinationOnce(cands, rest, Others(i, d), Others(j, d));
      SameNumber(i, j, d);
    }
  }

  lemma CombosFirst(cands: Candidates, names: seq<string>)
    requires NonEmpty(cands, names) && names != []
    ensures Combos(cands, names) == |cands[names[0]]| * Combos(cands, names[1..])
  {}

  lemma SameNumber(i: nat, j: nat, d: nat)
    requires d >= 1 && Others(i, d) == Others(j, d) && Digit(i, d) == Digit(j, d)
    ensures i == j
  {
    assert i == d * (i / d) + i % d && j == d * (j / d) + j % d;
  }

  ghost predicate SameOn(names: seq<string>, a: Assignment, b: Assignment) {
    forall n :: n in names ==> n in a && n in b && a[n] == b[n]
  }

  lemma {:induction false} SameDigits(cands: Candidates, names: seq<string>, i: nat, j: nat)
    requires NonEmpty(cands, names) && NoDup(names) && names != [] && NoDup(cands[names[0]])
    requires SameOn(names, Combination(cands, names, i), Combination(cands, names, j))
    ensures var d := |cands[names[0]]|;
            Digit(i, d) == Digit(j, d) &&
            SameOn(names[1..], Combination(cands, names[1..], Others(i, d)), Combination(cands, names[1..], Others(j, d)))
  {
    hide Digit, Others;
    var vals, rest := cands[names[0]], names[1..];
    var i', j' := Others(i, |vals|), Others(j, |vals|);
    assert names == [names[0]] + rest;
    CombinationTried(cands, rest, i');
    CombinationTried(cands, rest, j');
    assert vals[Digit(i, |vals|)] == vals[Digit(j, |vals|)];
    forall n | n in rest ensures Combination(cands, rest, i')[n] == Combination(cands, rest, j')[n] {
      assert n in names && n != names[0];
    }
  }

  /** f over the assignments of l, first to last, until it says stop. */
  ghost function FoldUntil<A>(f: (A, Assignment) -> (A, bool), acc: A, l: seq<Assignment>): A
    decreases |l|
  {
    if l == [] then acc
    else
      var (acc', more) := f(acc, l[0]);
      if more then FoldUntil(f, acc', l[1..]) else acc'
  }

  /** What is tried: every combination when there are few enough, else that many drawn ones. */
  ghost function Attempts(cands: Candidates, names: seq<string>, draw: (nat, nat) -> nat): seq<Assignment>
    requires NonEmpty(cands, names)
  {
    if Combos(cands, names) <= MAX_ASSIGNMENTS
    then seq(Combos(cands, names), (i: nat) => Combination(cands, names, i))
    else seq(MAX_ASSIGNMENTS, (i: nat) => Sample(cands, names, draw, i))
  }

  /** What is tried gives every name a value of its own, whether it is all that can be or drawn; and there are as many as there
      are combinations, but never more than the bound. */
  lemma {:induction false} AttemptsMean(cands: Candidates, names: seq<string>, draw: (nat, nat) -> nat)
    requires NonEmpty(cands, names) && NoDup(names)
    ensures |Attempts(cands, names, draw)| == if Combos(cands, names) <= 4096 then Combos(cands, names) else 4096
    ensures forall b, n :: b in Attempts(cands, names, draw) && n in names ==> n in b && b[n] in cands[n]
  {
    hide Combos, Combination, Digit;
    var l := Attempts(cands, names, draw);
    forall b, n | b in l && n in names ensures n in b && b[n] in cands[n] {
      var i :| 0 <= i < |l| && l[i] == b;
      if Combos(cands, names) <= MAX_ASSIGNMENTS { CombinationTried(cands, names, i); }
    }
  }

  /** A value listed twice makes two combinations that are the same. */
  lemma {:induction false} CombinationTwice(cands: Candidates, names: seq<string>, n: string, p: nat, q: nat) returns (i: nat, j: nat)
    requires NonEmpty(cands, names) && NoDup(names) && n in names && p < q < |cands[n]| && cands[n][p] == cands[n][q]
    ensures i != j && i < Combos(cands, names) && j < Combos(cands, names)
    ensures Combination(cands, names, i) == Combination(cands, names, j)
  {
    hide Combination, Combos, Digit, Others;
    var first, rest := names[0], names[1..];
    var d := |cands[first]|;
    assert names == [first] + rest;
    CombosFirst(cands, names);
    if n == first {
      i, j := p, q;
      CombosSome(cands, rest);
      BelowProduct(0, d, p, Combos(cands, rest));
      BelowProduct(0, d, q, Combos(cands, rest));
      CombinationAtDigit(cands, names, 0, p);
      CombinationAtDigit(cands, names, 0, q);
    } else {
      var i', j' := CombinationTwice(cands, rest, n, p, q);
      i, j := i' * d, j' * d;
      CombinationAtDigit(cands, names, i', 0);
      CombinationAtDigit(cands, names, j', 0);
      BelowProduct(i', d, 0, Combos(cands, rest));
      BelowProduct(j', d, 0, Combos(cands, rest));
      TimesApart(i', j', d);
    }
  }

  lemma TimesApart(i: nat, j: nat, d: nat)
    requires i != j && d >= 1
    ensures i * d != j * d
  {
    DivModOf(i, d, 0);
    DivModOf(j, d, 0);
  }

  /** The combination whose first digit is k and whose others are those of q. */
  lemma CombinationAtDigit(cands: Candidates, names: seq<string>, q: nat, k: nat)
    requires NonEmpty(cands, names) && NoDup(names) && names != [] && k < |cands[names[0]]|
    ensures Combination(cands, names, q * |cands[names[0]]| + k) ==
            Combination(cands, names[1..], q)[names[0] := cands[names[0]][k]]
  {
    hide Digit, Others, Combos;
    DivModOf(q, |cands[names[0]]|, k);
  }

  lemma {:induction false} CombosSome(cands: Candidates, names: seq<string>)
    requires NonEmpty(cands, names)
    ensures Combos(cands, names) > 0
  {
    if names != [] {
      CombosSome(cands, names[1..]);
      ProductAtLeast(|cands[names[0]]|, Combos(cands, names[1..]));
    }
  }

  /** Where all combinations fit, no assignment is tried twice exactly when no value is listed twice. */
  lemma {:induction false} AttemptsOnce(cands: Candidates, names: seq<string>, draw: (nat, nat) -> nat)
    requires NonEmpty(cands, names) && NoDup(names) && Combos(cands, names) <= MAX_ASSIGNMENTS
    ensures NoDup(Attempts(cands, names, draw)) <==> forall n :: n in names ==> NoDup(cands[n])
  {
    hide Combination, Combos;
    var l := Attempts(cands, names, draw);
    if forall n :: n in names ==> NoDup(cands[n]) {
      forall i, j | 0 <= i < j < |l| ensures l[i] != l[j] {
        if l[i] == l[j] {
          CombinationTried(cands, names, i);
          CombinationOnce(cands, names, i, j);
        }
      }
    }
    forall n | n in names && !NoDup(cands[n]) ensures !NoDup(l) {
      var p, q :| 0 <= p < q < |cands[n]| && cands[n][p] == cands[n][q];
      var i, j := CombinationTwice(cands, names, n, p, q);
      assert l[i] == l[j];
    }
  }

  lemma CombosAfter(cands: Candidates, names: seq<string>, k: nat, total: nat)
    requires NonEmpty(cands, names) && k < |names| && total * Combos(cands, names[k..]) == Combos(cands, names)
    ensures names[k] in cands && cands[names[k]] != [] && NonEmpty(cands, names[k + 1..])
    ensures total * |cands[names[k]]| * Combos(cands, names[k + 1..]) == Combos(cands, names)
  {
    assert names[k] in names && names[k..][1..] == names[k + 1..];
    CombosFirst(cands, names[k..]);
    var d, r := |cands[names[k]]|, Combos(cands, names[k + 1..]);
    assert total * d * r == total * (d * r) by { Associate(total, d, r); }
  }

  lemma Associate(a: nat, b: nat, c: nat)
    ensures a * b * c == a * (b * c)
  {}

  /** The product of the list lengths, given up once it is past the bound. */
  method Total(cands: Candidates, names: seq<string>) returns (total: nat)
    requires NonEmpty(cands, names)
    ensures total > MAX_ASSIGNMENTS <==> Combos(cands, names) > MAX_ASSIGNMENTS
    ensures total <= MAX_ASSIGNMENTS ==> total == Combos(cands, names)
  {
    total := 1;
    assert names[0..] == names;
    for k := 0 to |names|
      invariant NonEmpty(cands, names[k..])
      invariant total * Combos(cands, names[k..]) == Combos(cands, names)
      invariant total >= 1
    {
      hide Combos;
      CombosAfter(cands, names, k, total);
      ProductAtLeast(total, |cands[names[k]]|);
      total := total * |cands[names[k]]|;
      if total > MAX_ASSIGNMENTS {
        ProductAtLeast(total, Combos(cands, names[k + 1..]));
        return;
      }
    }
    assert names[|names|..] == [];
  }

  lemma CombinationStep(cands: Candidates, names: seq<string>, k: nat, idx: nat, assign: Assignment)
    requires NonEmpty(cands, names) && NoDup(names) && k < |names| && forall n :: n in assign ==> n in names[..k]
    ensures names[k] in cands && cands[names[k]] != [] && NonEmpty(cands, names[k..]) && NonEmpty(cands, names[k + 1..])
    ensures var d := |cands[names[k]]|;
            Combination(cands, names[k..], idx) + assign ==
            Combination(cands, names[k + 1..], Others(idx, d)) + assign[names[k] := cands[names[k]][Digit(idx, d)]]
  {
    hide Digit, Others;
    assert names[k] in names && names[k..][1..] == names[k + 1..];
    assert names[k] !in names[..k];
  }

  /** The i-th combination, digit by digit. */
  method CombinationAt(cands: Candidates, names: seq<string>, i: nat) returns (assign: Assignment)
    requires NonEmpty(cands, names) && NoDup(names)
    ensures assign == Combination(cands, names, i)
  {
    assign := map[];
    var idx := i;
    assert names[0..] == names && Combination(cands, names, i) + map[] == Combination(cands, names, i);
    for k := 0 to |names|
      invariant NonEmpty(cands, names[k..])
      invariant forall n :: n in assign ==> n in names[..k]
      invariant Combination(cands, names[k..], idx) + assign == Combination(cands, names, i)
    {
      hide Combination;
      CombinationStep(cands, names, k, idx, assign);
      var vals := cands[names[k]];
      assign := assign[names[k] := vals[Digit(idx, |vals|)]];
      idx := Others(idx, |vals|);
      assert names[..k + 1] == names[..k] + [names[k]];
    }
    assert names[|names|..] == [];
    assert map[] + assign == assign;
  }

  method SampleAt(cands: Candidates, names: seq<string>, draw: (nat, nat) -> nat, i: nat) returns (assign: Assignment)
    requires NonEmpty(cands, names) && NoDup(names)
    ensures assign == Sample(cands, names, draw, i)
  {
    assign := map[];
    for k := 0 to |names|
      invariant assign.Keys == set n | n in names[..k]
      invariant forall n :: n in assign ==> n in names && assign[n] == Drawn(cands, draw, i, IndexIn(names, n), n)
    {
      hide IndexIn;
      var n := names[k];
      assert n in names && names[..k + 1] == names[..k] + [n];
      IndexInAt(names, k);
      assign := assign[n := Drawn(cands, draw, i, k, n)];
    }
    assert names[..|names|] == names;
  }

  lemma {:induction false} IndexInAt(names: seq<string>, k: nat)
    requires NoDup(names) && k < |names|
    ensures IndexIn(names, names[k]) == k
  {
    if k > 0 {
      assert names[0] != names[k];
      IndexInAt(names[1..], k - 1);
    }
  }

  /** eachAssignment: f over what there is to try, until it has seen enough. */
  method EachAssignment<A>(cands: Candidates, draw: (nat, nat) -> nat, f: (A, Assignment) -> (A, bool), init: A) returns (acc: A)
    requires NonEmpty(cands, SortedNames(cands.Keys))
    ensures acc == FoldUntil(f, init, Attempts(cands, SortedNames(cands.Keys), draw))
  {
    hide Combos, Combination, Sample;
    var names := SortedComponentNames(cands.Keys);
    SortedOnce(cands.Keys);
    var total := Total(cands, names);
    ghost var l := Attempts(cands, names, draw);
    var n := if total > MAX_ASSIGNMENTS then MAX_ASSIGNMENTS else total;
    acc := init;
    assert l[0..] == l;
    for i := 0 to n
      invariant FoldUntil(f, acc, l[i..]) == FoldUntil(f, init, l)
    {
      var assign: Assignment;
      if total > MAX_ASSIGNMENTS {
        assign := SampleAt(cands, names, draw, i);
      } else {
        assign := CombinationAt(cands, names, i);
      }
      assert l[i..][0] == assign && l[i..][1..] == l[i + 1..];
      var (acc', more) := f(acc, assign);
      acc := acc';
      if !more { return; }
    }
  }

  lemma SortedOnce(keys: set<string>)
    ensures NoDup(SortedNames(keys))
  {
    StringLessWeak();
    StrictNoDup(StringLess, SortedNames(keys));
  }

  // ---------------------------------------------------------------- disagreements

  datatype Disagreement = Disagreement(state: string, healthy: bool, facts: Assignment)

  predicate ListsPair(out: seq<Disagreement>, state: string, healthy: bool) {
    exists i :: 0 <= i < |out| && out[i].state == state && out[i].healthy == healthy
  }

  /** One assignment: a disagreement of a new kind is noted. */
  function Note(t: Subject): (seq<Disagreement>, Assignment) -> (seq<Disagreement>, bool) {
    (out: seq<Disagreement>, a: Assignment) =>
      var h := HealthOf(t, a);
      (if Disagrees(t, h) && !ListsPair(out, h.state, h.healthy) then out + [Disagreement(h.state, h.healthy, a)] else out, true)
  }

  predicate DisagreementLess(a: Disagreement, b: Disagreement) {
    if a.state != b.state then StringLess(a.state, b.state) else a.healthy && !b.healthy
  }

  /** Every disagreement listed is one its own witness shows, and no kind is listed twice. */
  ghost predicate Shown(t: Subject, out: seq<Disagreement>) {
    && (forall d :: d in out ==> Disagrees(t, HealthOf(t, d.facts)) && HealthOf(t, d.facts) == Health(d.state, d.healthy, true))
    && forall i, j :: 0 <= i < j < |out| ==> (out[i].state, out[i].healthy) != (out[j].state, out[j].healthy)
  }

  lemma {:induction false} NoteAll(t: Subject, out: seq<Disagreement>, l: seq<Assignment>)
    requires Shown(t, out)
    ensures var all := FoldUntil(Note(t), out, l);
            && Shown(t, all)
            && (forall d :: d in all ==> d in out || d.facts in l)
            && (forall d :: d in out ==> d in all)
            && forall a :: a in l && Disagrees(t, HealthOf(t, a)) ==> ListsPair(all, HealthOf(t, a).state, HealthOf(t, a).healthy)
    decreases |l|
  {
    hide HealthOf, Disagrees;
    if l != [] {
      var h := HealthOf(t, l[0]);
      var (next, more) := Note(t)(out, l[0]);
      assert l == [l[0]] + l[1..];
      assert Shown(t, next) by { NoteOne(t, out, l[0]); }
      NoteAll(t, next, l[1..]);
      var all := FoldUntil(Note(t), next, l[1..]);
      if Disagrees(t, h) {
        var i :| 0 <= i < |next| && next[i].state == h.state && next[i].healthy == h.healthy;
        assert next[i] in all;
      }
    }
  }

  lemma NoteOne(t: Subject, out: seq<Disagreement>, a: Assignment)
    requires Shown(t, out)
    ensures Shown(t, Note(t)(out, a).0)
    ensures Disagrees(t, HealthOf(t, a)) ==> ListsPair(Note(t)(out, a).0, HealthOf(t, a).state, HealthOf(t, a).healthy)
    ensures out <= Note(t)(out, a).0
  {
    hide HealthOf;
    var h, next := HealthOf(t, a), Note(t)(out, a).0;
    if Disagrees(t, h) && !ListsPair(out, h.state, h.healthy) { assert next[|out|] == Disagreement(h.state, h.healthy, a); }
  }

  ghost function CandidateMap(t: Subject): Candidates {
    map f | f in t.kinds && TriesFor(t, f) != [] :: TriesFor(t, f)
  }

  /** All combinations fit the bound. */
  ghost predicate Few(t: Subject) {
    NonEmpty(CandidateMap(t), SortedNames(CandidateMap(t).Keys)) &&
    Combos(CandidateMap(t), SortedNames(CandidateMap(t).Keys)) <= MAX_ASSIGNMENTS
  }

  /** Where all combinations fit, no assignment is tried twice exactly when no count has two constants that are close and
      differ in their fractions. */
  lemma {:induction false} CandidateAttemptsOnce(t: Subject, draw: (nat, nat) -> nat)
    requires Few(t)
    ensures NoDup(Attempts(CandidateMap(t), SortedNames(CandidateMap(t).Keys), draw)) <==> forall f :: f in t.kinds ==> Apart(t, f, 0)
  {
    hide TriesFor, Combos, Apart;
    var cands := CandidateMap(t);
    SortedOnce(cands.Keys);
    forall f | f in t.kinds ensures NoDup(TriesFor(t, f)) <==> Apart(t, f, 0) { TriedOnceExactly(t, f); }
    assert forall f :: f in t.kinds && f !in cands ==> TriesFor(t, f) == [];
    assert forall f :: f in SortedNames(cands.Keys) <==> f in cands;
    AttemptsOnce(cands, SortedNames(cands.Keys), draw);
  }

  /** Some facts the component may have put it in state, healthy or not as said, and rules and states then disagree. */
  ghost predicate CanDisagree(t: Subject, state: string, healthy: bool) {
    Disagrees(t, Health(state, healthy, true)) &&
    exists a :: InDomain(t, CandidateMap(t), a) && HealthOf(t, a) == Health(state, healthy, true)
  }

  lemma {:induction false} PlainIsTried(t: Subject, cands: Candidates, n: Node)
    requires AreCandidates(t, cands) && Plain(t, n) && Gathered(t, n)
    ensures cands != map[]
  {
    hide AreCandidates, Constants, Literals;
    match n
    case And(l, r) => GatheredParts(t, n, l, r); PlainIsTried(t, cands, l);
    case Or(l, r) => GatheredParts(t, n, l, r); PlainIsTried(t, cands, l);
    case Cmp(_, _, _, _) => CmpIsTried(t, cands, n);
  }

  /** A plain type with a rule has something to try. */
  lemma SomethingTried(t: Subject, cands: Candidates)
    requires PlainSubject(t) && AreCandidates(t, cands) && t.rules != []
    ensures cands != map[]
  {
    hide AreCandidates, Predicates;
    PredicatesHold(t.rules, t.states);
    var n := t.rules[0];
    assert n in t.rules;
    forall f { AllConstants(t, Predicates(t.rules, t.states), f); }
    assert Gathered(t, n);
    PlainIsTried(t, cands, n);
  }

  lemma {:induction false} AttemptsCover(t: Subject, cands: Candidates, draw: (nat, nat) -> nat)
    requires PlainSubject(t) && AreCandidates(t, cands) && Few(t) && cands == CandidateMap(t)
    ensures forall b :: b in Attempts(cands, SortedNames(cands.Keys), draw) ==> Tried(cands, b)
    ensures forall b :: Tried(cands, b) ==> b in Attempts(cands, SortedNames(cands.Keys), draw)
  {
    hide AreCandidates, PlainSubject, Combination;
    var names := SortedNames(cands.Keys);
    SortedOnce(cands.Keys);
    var l := Attempts(cands, names, draw);
    forall b | b in l ensures Tried(cands, b) {
      var i :| 0 <= i < |l| && l[i] == b;
      CombinationTried(cands, names, i);
    }
    forall b | Tried(cands, b) ensures b in l {
      var i := CombinationReached(cands, names, b);
      CombinationTried(cands, names, i);
      assert l[i] == b;
    }
  }

  lemma {:induction false} AllFound(t: Subject, cands: Candidates, draw: (nat, nat) -> nat, state: string, healthy: bool)
    requires PlainSubject(t) && AreCandidates(t, cands) && Few(t) && cands == CandidateMap(t)
    ensures ListsPair(FoldUntil(Note(t), [], Attempts(cands, SortedNames(cands.Keys), draw)), state, healthy) <==>
              CanDisagree(t, state, healthy)
  {
    hide AreCandidates, PlainSubject, Attempts, HealthOf, Few;
    var l := Attempts(cands, SortedNames(cands.Keys), draw);
    var out := FoldUntil(Note(t), [], l);
    NoteAll(t, [], l);
    AttemptsCover(t, cands, draw);
    if ListsPair(out, state, healthy) {
      var i :| 0 <= i < |out| && out[i].state == state && out[i].healthy == healthy;
      assert out[i] in out;
      TriedInDomain(t, cands, out[i].facts);
    }
    if CanDisagree(t, state, healthy) {
      var a :| InDomain(t, cands, a) && HealthOf(t, a) == Health(state, healthy, true);
      TriesAreEnough(t, cands, a);
      var b :| Tried(cands, b) && HealthOf(t, b) == HealthOf(t, a);
    }
  }

  lemma SortedShown(t: Subject, out: seq<Disagreement>)
    requires Shown(t, out)
    ensures Shown(t, Sort(DisagreementLess, out))
    ensures forall state, healthy :: ListsPair(Sort(DisagreementLess, out), state, healthy) <==> ListsPair(out, state, healthy)
  {
    hide HealthOf, Disagrees, Sort, DisagreementLess, ListsPair;
    var l := Sort(DisagreementLess, out);
    SortKeeps(DisagreementLess, out);
    SortElements(DisagreementLess, out);
    PairsDistinct(out);
    MultisetNoDup(l);
    forall i, j | 0 <= i < j < |l| ensures (l[i].state, l[i].healthy) != (l[j].state, l[j].healthy) {
      assert l[i] in out && l[j] in out && l[i] != l[j];
    }
    forall state, healthy ensures ListsPair(l, state, healthy) <==> ListsPair(out, state, healthy) {
      ListedPair(l, state, healthy);
      ListedPair(out, state, healthy);
    }
  }

  lemma DisagreementLessWeak()
    ensures WeakOrder(DisagreementLess)
  {
    hide StringLess;
    StringLessWeak();
    forall x, y, z | DisagreementLess(x, z) ensures DisagreementLess(x, y) || DisagreementLess(y, z) {
      StringTotal(x.state, y.state);
      StringTotal(y.state, z.state);
    }
  }

  /** Sorted, they come by state, and of one state the healthy one first. */
  lemma InStateOrder(t: Subject, out: seq<Disagreement>)
    requires Shown(t, out)
    ensures var l := Sort(DisagreementLess, out);
            forall i, j :: 0 <= i < j < |l| ==>
              Lesser(l[i].state, l[j].state) || (l[i].state == l[j].state && l[i].healthy && !l[j].healthy)
  {
    hide HealthOf, Disagrees, Sort, StringLess, Lesser, ListsPair;
    var l := Sort(DisagreementLess, out);
    DisagreementLessWeak();
    SortSorts(DisagreementLess, out);
    SortedShown(t, out);
    forall i, j | 0 <= i < j < |l|
      ensures Lesser(l[i].state, l[j].state) || (l[i].state == l[j].state && l[i].healthy && !l[j].healthy)
    {
      StringTotal(l[i].state, l[j].state);
      StringLessMeans(l[i].state, l[j].state);
      assert !DisagreementLess(l[j], l[i]);
    }
  }

  /** Entries of different kinds are different entries, and each kind has one. */
  lemma PairsDistinct(out: seq<Disagreement>)
    requires forall i, j :: 0 <= i < j < |out| ==> (out[i].state, out[i].healthy) != (out[j].state, out[j].healthy)
    ensures forall d :: multiset(out)[d] <= 1
    ensures forall d, e :: d in out && e in out && (d.state, d.healthy) == (e.state, e.healthy) ==> d == e
  {
    NoDupMultiset(out);
    forall d, e | d in out && e in out && (d.state, d.healthy) == (e.state, e.healthy) ensures d == e {
      var i :| 0 <= i < |out| && out[i] == d;
      var j :| 0 <= j < |out| && out[j] == e;
      assert i == j;
    }
  }

  lemma ListedPair(out: seq<Disagreement>, state: string, healthy: bool)
    ensures ListsPair(out, state, healthy) <==> exists d :: d in out && d.state == state && d.healthy == healthy
  {
    if d :| d in out && d.state == state && d.healthy == healthy {
      var i :| 0 <= i < |out| && out[i] == d;
    }
  }

  /** HealthStateDisagreements: each kind of disagreement once, with facts that show it -- and, where all combinations
      fit the bound and the type compares like with like, every kind there can be, whatever values the facts have. */
  method HealthStateDisagreements(t: Subject, draw: (nat, nat) -> nat) returns (out: seq<Disagreement>)
    ensures t.defaultState == "" || t.rules == [] ==> out == []
    ensures Shown(t, out)
    ensures forall i, j :: 0 <= i < j < |out| ==>
              Lesser(out[i].state, out[j].state) || (out[i].state == out[j].state && out[i].healthy && !out[j].healthy)
    ensures PlainSubject(t) && Few(t) && t.defaultState != "" && t.rules != [] ==>
              forall state, healthy :: ListsPair(out, state, healthy) <==> CanDisagree(t, state, healthy)
  {
    hide Attempts, Note, CanDisagree, PlainSubject, ListsPair;
    if t.defaultState == "" || |t.rules| == 0 { return []; }
    var cands, _ := FindCandidates(t);
    assert cands == CandidateMap(t);
    if PlainSubject(t) { SomethingTried(t, cands); }
    if cands == map[] { return []; }
    hide AreCandidates, Few;
    CandidatesNonEmpty(t, cands);
    out := EachAssignment(cands, draw, Note(t), []);
    NoteAll(t, [], Attempts(cands, SortedNames(cands.Keys), draw));
    if PlainSubject(t) && Few(t) {
      forall state, healthy { AllFound(t, cands, draw, state, healthy); }
    }
    SortedShown(t, out);
    InStateOrder(t, out);
    out := Sort(DisagreementLess, out);
  }

  lemma CandidatesNonEmpty(t: Subject, cands: Candidates)
    requires AreCandidates(t, cands)
    ensures NonEmpty(cands, SortedNames(cands.Keys))
  {}
}
