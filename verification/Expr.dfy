/** Three-valued evaluation of state predicates, healthy rules and guards. */
module Expr {

  datatype Option<+T> = None | Some(value: T)

  /** A fact's value. VOther is any kind the evaluator does not know. */
  datatype Value = VBool(b: bool) | VInt(i: int) | VNum(r: real) | VStr(s: string) | VOther

  /** A variable of a component: unset, a number, or set to something that is not one. */
  datatype VarValue = Unset | Number(r: real) | NotNumeric

  /** How strings read as numbers and numbers print as strings. */
  datatype Numerals = Numerals(parse: string -> Option<real>, showInt: int -> string, showNum: real -> string)

  datatype Op = Eq | Neq | Lt | Gt | Lte | Gte

  datatype Node =
    | And(l: Node, r: Node)
    | Or(l: Node, r: Node)
    | Cmp(component: string, fact: string, op: Op, value: Value)

  datatype Ctx = Ctx(
    current: string,
    facts: (string, string) -> Option<Value>,
    vars: (string, string) -> VarValue,
    states: map<string, string>,
    num: Numerals)

  /** A decided result; or the facts do not say yet; or the comparison makes no sense. */
  datatype Outcome = Decided(b: bool) | Unresolved | Hard

  // ---------------------------------------------------------------- comparisons

  function CompareFloats(op: Op, a: real, b: real): bool {
    match op
    case Eq => a == b
    case Neq => a != b
    case Lt => a < b
    case Gt => a > b
    case Lte => a <= b
    case Gte => a >= b
  }

  function CompareBools(op: Op, a: bool, b: bool): Outcome {
    match op
    case Eq => Decided(a == b)
    case Neq => Decided(a != b)
    case _ => Hard
  }

  function AsBool(v: Value): Option<bool> {
    match v
    case VBool(b) => Some(b)
    case VStr(s) => if s == "true" then Some(true) else if s == "false" then Some(false) else None
    case _ => None
  }

  function AsString(num: Numerals, v: Value): Option<string> {
    match v
    case VStr(s) => Some(s)
    case VInt(i) => Some(num.showInt(i))
    case VNum(r) => Some(num.showNum(r))
    case VBool(b) => Some(if b then "true" else "false")
    case VOther => None
  }

  function ToNumeric(v: Value): Option<real> {
    match v
    case VInt(i) => Some(i as real)
    case VNum(r) => Some(r)
    case _ => None
  }

  function ToFloat(num: Numerals, v: Value): Option<real> {
    match v
    case VStr(s) => num.parse(s)
    case _ => ToNumeric(v)
  }

  function CompareStrings(num: Numerals, op: Op, a: string, v: Value): Outcome {
    match AsString(num, v)
    case None => Hard
    case Some(s) =>
      match op
      case Eq => Decided(a == s)
      case Neq => Decided(a != s)
      case _ => Hard
  }

  function CompareBoolFact(op: Op, fv: bool, v: Value): Outcome {
    match AsBool(v)
    case None => Unresolved
    case Some(b) => CompareBools(op, fv, b)
  }

  /** Numeric strings compare as numbers. */
  function CompareStringFact(num: Numerals, op: Op, fv: string, v: Value): Outcome {
    if num.parse(fv).Some? && ToFloat(num, v).Some? then
      Decided(CompareFloats(op, num.parse(fv).value, ToFloat(num, v).value))
    else if AsString(num, v).None? then Unresolved
    else CompareStrings(num, op, fv, VStr(AsString(num, v).value))
  }

  /** A string on the right that reads as no number is looked up: among the component's facts first, then its vars. */
  function CompareNumericFact(op: Op, fv: Value, v: Value, component: string, ctx: Ctx): Outcome {
    if ToNumeric(fv).None? then Hard
    else if ToFloat(ctx.num, v).Some? then
      Decided(CompareFloats(op, ToNumeric(fv).value, ToFloat(ctx.num, v).value))
    else if !v.VStr? then Unresolved
    else
      match ctx.facts(component, v.s)
      case Some(w) =>
        if ToNumeric(w).Some? then Decided(CompareFloats(op, ToNumeric(fv).value, ToNumeric(w).value)) else Unresolved
      case None =>
        match ctx.vars(component, v.s)
        case Number(r) => Decided(CompareFloats(op, ToNumeric(fv).value, r))
        case _ => Unresolved
  }

  // ---------------------------------------------------------------- evaluation

  /** Both sides are always evaluated: one may decide what the other cannot. */
  function EvalAnd(l: Outcome, r: Outcome): Outcome {
    if !l.Decided? && !r.Decided? then l
    else if !l.Decided? then (if !r.b then Decided(false) else l)
    else if !r.Decided? then (if !l.b then Decided(false) else r)
    else Decided(l.b && r.b)
  }

  function EvalOr(l: Outcome, r: Outcome): Outcome {
    if !l.Decided? && !r.Decided? then l
    else if !l.Decided? then (if r.b then Decided(true) else l)
    else if !r.Decided? then (if l.b then Decided(true) else r)
    else Decided(l.b || r.b)
  }

  function Subject(n: Node, ctx: Ctx): string
    requires n.Cmp?
  {
    if n.component == "" then ctx.current else n.component
  }

  function EvalCmp(n: Node, ctx: Ctx): Outcome
    requires n.Cmp?
  {
    var c := Subject(n, ctx);
    if n.fact == "state" then
      if c in ctx.states then CompareStrings(ctx.num, n.op, ctx.states[c], n.value) else Unresolved
    else
      match ctx.facts(c, n.fact)
      case None => Unresolved
      case Some(VBool(b)) => CompareBoolFact(n.op, b, n.value)
      case Some(VStr(s)) => CompareStringFact(ctx.num, n.op, s, n.value)
      case Some(v) => CompareNumericFact(n.op, v, n.value, c, ctx)
  }

  function Eval(n: Node, ctx: Ctx): Outcome {
    match n
    case And(l, r) => EvalAnd(Eval(l, ctx), Eval(r, ctx))
    case Or(l, r) => EvalOr(Eval(l, ctx), Eval(r, ctx))
    case Cmp(_, _, _, _) => EvalCmp(n, ctx)
  }

  // ---------------------------------------------------------------- strong Kleene

  /** The three truth values in order: false below unknown below true. */
  function Rank(o: Outcome): int {
    match o
    case Decided(b) => if b then 2 else 0
    case _ => 1
  }

  /** And is the minimum and Or the maximum of the three-valued order, whichever the errors are;
      an undecided result keeps the kind of the left error when both sides fail, else of the failing side. */
  lemma StrongKleene(l: Outcome, r: Outcome)
    ensures Rank(EvalAnd(l, r)) == if Rank(l) <= Rank(r) then Rank(l) else Rank(r)
    ensures Rank(EvalOr(l, r)) == if Rank(l) >= Rank(r) then Rank(l) else Rank(r)
    ensures !EvalAnd(l, r).Decided? ==> EvalAnd(l, r) == if l.Decided? then r else l
    ensures !EvalOr(l, r).Decided? ==> EvalOr(l, r) == if l.Decided? then r else l
  {}

  // ---------------------------------------------------------------- what a comparison says

  /** o is decided by op between two things of which the first is less, or equal, as said. */
  predicate Settled(o: Outcome, op: Op, less: bool, equal: bool) {
    o.Decided? &&
    (op == Eq ==> o.b == equal) && (op == Neq ==> o.b == !equal) && (op == Lt ==> o.b == less) &&
    (op == Gte ==> o.b == !less) && (op == Lte ==> o.b == (less || equal)) && (op == Gt ==> o.b == !(less || equal))
  }

  /** v is the number x, a whole one or not. */
  predicate IsNumber(v: Value, x: real) {
    (v.VInt? && v.i as real == x) || (v.VNum? && v.r == x)
  }

  /** A fact nobody has read leaves its comparison open; a component without a derived state, one of its state. */
  lemma NothingRead(n: Node, ctx: Ctx)
    requires n.Cmp?
    ensures var c := if n.component == "" then ctx.current else n.component;
            (if n.fact == "state" then c !in ctx.states else ctx.facts(c, n.fact).None?) ==> Eval(n, ctx) == Unresolved
  {}

  /** A number against a number, or against a literal that reads as one. */
  lemma NumbersCompare(n: Node, ctx: Ctx, x: real, y: real)
    requires n.Cmp? && n.fact != "state"
    requires var v := ctx.facts(if n.component == "" then ctx.current else n.component, n.fact); v.Some? && IsNumber(v.value, x)
    requires IsNumber(n.value, y) || (n.value.VStr? && ctx.num.parse(n.value.s) == Some(y))
    ensures Settled(Eval(n, ctx), n.op, x < y, x == y)
  {}

  /** A number against a word: another fact of the component where one has been read, else a var, else open. Against a
      literal that is neither it stays open too. */
  lemma WordsCompare(n: Node, ctx: Ctx, x: real)
    requires n.Cmp? && n.fact != "state"
    requires var v := ctx.facts(if n.component == "" then ctx.current else n.component, n.fact); v.Some? && IsNumber(v.value, x)
    requires n.value.VStr? && ctx.num.parse(n.value.s).None?
    ensures var c, o := if n.component == "" then ctx.current else n.component, Eval(n, ctx);
            && (forall y :: ctx.facts(c, n.value.s).Some? && IsNumber(ctx.facts(c, n.value.s).value, y) ==>
                  Settled(o, n.op, x < y, x == y))
            && (ctx.facts(c, n.value.s).Some? && ctx.facts(c, n.value.s).value.VBool? ==> o == Unresolved)
            && (ctx.facts(c, n.value.s).Some? && ctx.facts(c, n.value.s).value.VStr? ==> o == Unresolved)
            && (forall y :: ctx.facts(c, n.value.s).None? && ctx.vars(c, n.value.s) == Number(y) ==>
                  Settled(o, n.op, x < y, x == y))
            && (ctx.facts(c, n.value.s).None? && !ctx.vars(c, n.value.s).Number? ==> o == Unresolved)
  {}

  /** A number stays open against a literal that is neither number nor word, or against a fact that is no number; and a fact
      of an unknown kind makes no sense against anything. */
  lemma OthersCompare(n: Node, ctx: Ctx)
    requires n.Cmp? && n.fact != "state"
    ensures var c, o := if n.component == "" then ctx.current else n.component, Eval(n, ctx);
            && (forall x, v :: ctx.facts(c, n.fact) == Some(v) && IsNumber(v, x) && (n.value.VBool? || n.value.VOther?) ==> o == Unresolved)
            && (forall x, v :: ctx.facts(c, n.fact) == Some(v) && IsNumber(v, x) && n.value.VStr? && ctx.num.parse(n.value.s).None? ==>
                  ctx.facts(c, n.value.s) == Some(VOther) ==> o == Unresolved)
            && (ctx.facts(c, n.fact) == Some(VOther) ==> o == Hard)
  {}

  /** A boolean can be equal or not to a boolean, or to a word for one; under another sign that makes no sense, and against
      another literal it stays open. */
  lemma BooleansCompare(n: Node, ctx: Ctx, b: bool)
    requires n.Cmp? && n.fact != "state"
    requires ctx.facts(if n.component == "" then ctx.current else n.component, n.fact) == Some(VBool(b))
    ensures n.value == VBool(true) || n.value == VStr("true") ==>
              Eval(n, ctx) == if n.op == Eq then Decided(b) else if n.op == Neq then Decided(!b) else Hard
    ensures n.value == VBool(false) || n.value == VStr("false") ==>
              Eval(n, ctx) == if n.op == Eq then Decided(!b) else if n.op == Neq then Decided(b) else Hard
    ensures !n.value.VBool? && n.value != VStr("true") && n.value != VStr("false") ==> Eval(n, ctx) == Unresolved
  {
    assert "true"[0] != "false"[0];
  }

  /** A string that reads as a number is compared as one with what reads as one; otherwise it can be equal or not to the
      literal as it is printed, and under another sign that makes no sense. */
  lemma StringsCompare(n: Node, ctx: Ctx, s: string)
    requires n.Cmp? && n.fact != "state"
    requires ctx.facts(if n.component == "" then ctx.current else n.component, n.fact) == Some(VStr(s))
    ensures forall x, y :: ctx.num.parse(s) == Some(x) && (IsNumber(n.value, y) || (n.value.VStr? && ctx.num.parse(n.value.s) == Some(y))) ==>
              Settled(Eval(n, ctx), n.op, x < y, x == y)
    ensures forall t :: Prints(ctx.num, n.value, t) && (ctx.num.parse(s).None? || n.value.VBool? || (n.value.VStr? && ctx.num.parse(t).None?)) ==>
              Eval(n, ctx) == if n.op == Eq then Decided(s == t) else if n.op == Neq then Decided(s != t) else Hard
    ensures n.value.VOther? ==> Eval(n, ctx) == Unresolved
  {}

  /** The literal v printed is t. */
  predicate Prints(num: Numerals, v: Value, t: string) {
    v == VStr(t) || (v == VBool(true) && t == "true") || (v == VBool(false) && t == "false") ||
    (v.VInt? && num.showInt(v.i) == t) || (v.VNum? && num.showNum(v.r) == t)
  }

  /** A component's state is compared as a string, never as a number. */
  lemma StatesCompare(n: Node, ctx: Ctx)
    requires n.Cmp? && n.fact == "state"
    requires (if n.component == "" then ctx.current else n.component) in ctx.states
    ensures forall t :: Prints(ctx.num, n.value, t) ==>
              var s := ctx.states[if n.component == "" then ctx.current else n.component];
              Eval(n, ctx) == if n.op == Eq then Decided(s == t) else if n.op == Neq then Decided(s != t) else Hard
    ensures n.value.VOther? ==> Eval(n, ctx) == Hard
  {}

  /** The comparisons of n, left to right. */
  function Comparisons(n: Node): (cs: seq<Node>)
    ensures forall c :: c in cs ==> c.Cmp?
  {
    match n
    case And(l, r) => Comparisons(l) + Comparisons(r)
    case Or(l, r) => Comparisons(l) + Comparisons(r)
    case Cmp(_, _, _, _) => [n]
  }

  /** Some comparison of n satisfies p. */
  ghost predicate Somewhere(n: Node, p: Node -> bool) {
    exists i :: 0 <= i < |Comparisons(n)| && p(Comparisons(n)[i])
  }

  lemma SomewhereMeans(n: Node, p: Node -> bool)
    ensures n.Cmp? ==> (Somewhere(n, p) <==> p(n))
    ensures n.And? || n.Or? ==> (Somewhere(n, p) <==> Somewhere(n.l, p) || Somewhere(n.r, p))
  {
    if n.Cmp? {
      assert Comparisons(n)[0] == n;
    } else {
      var a, b := Comparisons(n.l), Comparisons(n.r);
      assert Comparisons(n) == a + b;
      if i :| 0 <= i < |a| && p(a[i]) { assert (a + b)[i] == a[i]; }
      if i :| 0 <= i < |b| && p(b[i]) { assert (a + b)[|a| + i] == b[i]; }
      if i :| 0 <= i < |a + b| && p((a + b)[i]) {
        if i < |a| { assert p(a[i]); } else { assert p(b[i - |a|]); }
      }
    }
  }

  // ---------------------------------------------------------------- information

  /** Every fact and state ctx knows, ctx' knows too, with the same value. */
  ghost predicate Below(ctx: Ctx, ctx': Ctx) {
    && ctx.current == ctx'.current && ctx.vars == ctx'.vars && ctx.num == ctx'.num
    && (forall c, k :: ctx.facts(c, k).Some? ==> ctx'.facts(c, k) == ctx.facts(c, k))
    && (forall c :: c in ctx.states ==> c in ctx'.states && ctx'.states[c] == ctx.states[c])
  }

  /** No word on a right-hand side is both a var and a fact of the component compared. */
  predicate NoClash(n: Node, ctx: Ctx) {
    match n
    case And(l, r) => NoClash(l, ctx) && NoClash(r, ctx)
    case Or(l, r) => NoClash(l, ctx) && NoClash(r, ctx)
    case Cmp(_, _, _, v) =>
      v.VStr? ==> ctx.vars(Subject(n, ctx), v.s).Unset? || ctx.facts(Subject(n, ctx), v.s).None?
  }

  /** Some part of what ctx knows makes n fail hard: a comparison of it makes no sense, and what stands to its left
      in an And or an Or does not settle the matter first. */
  predicate CanFailHard(n: Node, ctx: Ctx) {
    match n
    case And(l, r) => CanFailHard(l, ctx) || (CanFailHard(r, ctx) && Eval(l, ctx) == Decided(true))
    case Or(l, r) => CanFailHard(l, ctx) || (CanFailHard(r, ctx) && Eval(l, ctx) == Decided(false))
    case Cmp(_, _, _, _) => EvalCmp(n, ctx).Hard?
  }

  lemma CmpMonotone(n: Node, ctx: Ctx, ctx': Ctx)
    requires n.Cmp? && Below(ctx, ctx') && NoClash(n, ctx')
    ensures EvalCmp(n, ctx).Decided? ==> EvalCmp(n, ctx') == EvalCmp(n, ctx)
    ensures EvalCmp(n, ctx).Hard? ==> EvalCmp(n, ctx').Hard?
  {
    var c := Subject(n, ctx);
    if n.fact != "state" && ctx.facts(c, n.fact).Some? {
      assert ctx'.facts(c, n.fact) == ctx.facts(c, n.fact);
      if n.value.VStr? && ctx.facts(c, n.value.s).Some? {
        assert ctx'.facts(c, n.value.s) == ctx.facts(c, n.value.s);
      }
    }
  }

  /** Evaluation is monotone in information: what is decided stays decided, the same way. */
  lemma {:induction false} EvalMonotone(n: Node, ctx: Ctx, ctx': Ctx)
    requires Below(ctx, ctx') && NoClash(n, ctx')
    ensures Eval(n, ctx).Decided? ==> Eval(n, ctx') == Eval(n, ctx)
  {
    match n
    case And(l, r) => EvalMonotone(l, ctx, ctx'); EvalMonotone(r, ctx, ctx');
    case Or(l, r) => EvalMonotone(l, ctx, ctx'); EvalMonotone(r, ctx, ctx');
    case Cmp(_, _, _, _) => CmpMonotone(n, ctx, ctx');
  }

  /** What cannot fail hard on all the facts does not on some of them. */
  lemma {:induction false} EvalNeverHard(n: Node, ctx: Ctx, ctx': Ctx)
    requires Below(ctx, ctx') && NoClash(n, ctx') && !CanFailHard(n, ctx')
    ensures !Eval(n, ctx).Hard?
  {
    match n
    case And(l, r) =>
      EvalMonotone(l, ctx, ctx');
      EvalNeverHard(l, ctx, ctx');
      if !CanFailHard(r, ctx') { EvalNeverHard(r, ctx, ctx'); }
    case Or(l, r) =>
      EvalMonotone(l, ctx, ctx');
      EvalNeverHard(l, ctx, ctx');
      if !CanFailHard(r, ctx') { EvalNeverHard(r, ctx, ctx'); }
    case Cmp(_, _, _, _) => CmpMonotone(n, ctx, ctx');
  }

  // ---------------------------------------------------------------- when some part of the facts fails hard

  /** The facts n's comparisons look up, those that ctx knows. */
  function Reads(n: Node, ctx: Ctx): set<(string, string)> {
    match n
    case And(l, r) => Reads(l, ctx) + Reads(r, ctx)
    case Or(l, r) => Reads(l, ctx) + Reads(r, ctx)
    case Cmp(_, fact, _, v) =>
      var c := Subject(n, ctx);
      (if ctx.facts(c, fact).Some? then {(c, fact)} else {}) + (if v.VStr? && ctx.facts(c, v.s).Some? then {(c, v.s)} else {})
  }

  /** No fact is looked up on both sides of an And or an Or. */
  predicate ReadOnce(n: Node, ctx: Ctx) {
    match n
    case And(l, r) => ReadOnce(l, ctx) && ReadOnce(r, ctx) && Reads(l, ctx) !! Reads(r, ctx)
    case Or(l, r) => ReadOnce(l, ctx) && ReadOnce(r, ctx) && Reads(l, ctx) !! Reads(r, ctx)
    case Cmp(_, _, _, _) => true
  }

  /** ctx with only these facts known, and no states. */
  function Only(ctx: Ctx, known: set<(string, string)>): Ctx {
    ctx.(facts := (c: string, k: string) => if (c, k) in known then ctx.facts(c, k) else None, states := map[])
  }

  lemma OnlyIsBelow(ctx: Ctx, known: set<(string, string)>)
    ensures Below(Only(ctx, known), ctx)
  {}

  /** What n looks up is all that matters to it. */
  lemma {:induction false} OnlyReads(n: Node, ctx: Ctx, known: set<(string, string)>, known': set<(string, string)>)
    requires forall p :: p in Reads(n, ctx) ==> (p in known <==> p in known')
    ensures Eval(n, Only(ctx, known)) == Eval(n, Only(ctx, known'))
  {
    match n
    case And(l, r) => OnlyReads(l, ctx, known, known'); OnlyReads(r, ctx, known, known');
    case Or(l, r) => OnlyReads(l, ctx, known, known'); OnlyReads(r, ctx, known, known');
    case Cmp(_, fact, _, v) =>
      var c := Subject(n, ctx);
      assert ctx.facts(c, fact).Some? ==> ((c, fact) in known <==> (c, fact) in known');
      assert Only(ctx, known).facts(c, fact) == Only(ctx, known').facts(c, fact);
      if v.VStr? {
        assert ctx.facts(c, v.s).Some? ==> ((c, v.s) in known <==> (c, v.s) in known');
        assert Only(ctx, known).facts(c, v.s) == Only(ctx, known').facts(c, v.s);
      }
  }

  /** With everything n looks up known, it evaluates as with all the facts. */
  lemma {:induction false} OnlyAll(n: Node, ctx: Ctx, known: set<(string, string)>)
    requires Reads(n, ctx) <= known && ctx.states == map[]
    ensures Eval(n, Only(ctx, known)) == Eval(n, ctx)
  {
    match n
    case And(l, r) => OnlyAll(l, ctx, known); OnlyAll(r, ctx, known);
    case Or(l, r) => OnlyAll(l, ctx, known); OnlyAll(r, ctx, known);
    case Cmp(_, fact, _, v) =>
      var c := Subject(n, ctx);
      assert Only(ctx, known).facts(c, fact) == ctx.facts(c, fact);
      if v.VStr? { assert Only(ctx, known).facts(c, v.s) == ctx.facts(c, v.s); }
  }

  /** With nothing n looks up known, it is undecided and never fails hard. */
  lemma {:induction false} OnlyNone(n: Node, ctx: Ctx, known: set<(string, string)>)
    requires Reads(n, ctx) !! known
    ensures Eval(n, Only(ctx, known)) == Unresolved
  {
    match n
    case And(l, r) => OnlyNone(l, ctx, known); OnlyNone(r, ctx, known);
    case Or(l, r) => OnlyNone(l, ctx, known); OnlyNone(r, ctx, known);
    case Cmp(_, fact, _, _) =>
      var c := Subject(n, ctx);
      assert ctx.facts(c, fact).Some? ==> (c, fact) in Reads(n, ctx);
      assert Only(ctx, known).facts(c, fact) == None;
  }

  /** Facts that make n fail hard, when some can. */
  lemma {:induction false} FailsHardOn(n: Node, ctx: Ctx) returns (known: set<(string, string)>)
    requires CanFailHard(n, ctx) && ReadOnce(n, ctx) && ctx.states == map[]
    ensures known <= Reads(n, ctx) && Eval(n, Only(ctx, known)) == Hard
    decreases n, 1
  {
    match n
    case Cmp(_, _, _, _) =>
      known := Reads(n, ctx);
      OnlyAll(n, ctx, known);
    case And(l, r) => known := SideFailsHard(n, l, r, true, ctx);
    case Or(l, r) => known := SideFailsHard(n, l, r, false, ctx);
  }

  /** The left side fails hard with nothing known on the right; or the right does beside a left side that is `open`. */
  lemma {:induction false} SideFailsHard(n: Node, l: Node, r: Node, open: bool, ctx: Ctx) returns (known: set<(string, string)>)
    requires n == if open then And(l, r) else Or(l, r)
    requires CanFailHard(n, ctx) && ReadOnce(n, ctx) && ctx.states == map[]
    ensures known <= Reads(n, ctx) && Eval(n, Only(ctx, known)) == Hard
    decreases n, 0
  {
    if CanFailHard(l, ctx) {
      known := FailsHardOn(l, ctx);
      OnlyNone(r, ctx, known);
    } else {
      var right := FailsHardOn(r, ctx);
      known := Reads(l, ctx) + right;
      OnlyAll(l, ctx, known);
      OnlyReads(r, ctx, right, known);
    }
  }

  /** For a predicate that looks no fact up twice: some part of the facts makes it fail hard exactly when it can. */
  lemma {:induction false} FailsHardOnSome(n: Node, ctx: Ctx)
    requires NoClash(n, ctx) && ReadOnce(n, ctx) && ctx.states == map[]
    ensures CanFailHard(n, ctx) <==> exists part :: Below(part, ctx) && Eval(n, part).Hard?
  {
    if CanFailHard(n, ctx) {
      var known := FailsHardOn(n, ctx);
      OnlyIsBelow(ctx, known);
    }
    if part :| Below(part, ctx) && Eval(n, part).Hard? {
      if !CanFailHard(n, ctx) { EvalNeverHard(n, part, ctx); }
    }
  }

  // ---------------------------------------------------------------- where monotonicity ends

  /** ctx with one more fact. */
  function Learn(ctx: Ctx, c: string, k: string, v: Value): Ctx {
    ctx.(facts := (c', k') => if c' == c && k' == k then Some(v) else ctx.facts(c', k'))
  }

  /** Every comparison with a number can come out either way for some other number. */
  function Flip(op: Op, a: real, b: real): real {
    match op
    case Eq => if a == b then a + 1.0 else a
    case Neq => if a != b then a else a + 1.0
    case Lt => if a < b then a else a + 1.0
    case Gt => if a > b then a else a - 1.0
    case Lte => if a <= b then a - 1.0 else a
    case Gte => if a >= b then a + 1.0 else a
  }

  lemma FlipFlips(op: Op, a: real, b: real)
    ensures CompareFloats(op, a, Flip(op, a, b)) != CompareFloats(op, a, b)
  {}

  /** n's result rests on a var: its right-hand word names no fact yet. */
  predicate ReadsVar(n: Node, ctx: Ctx)
    requires n.Cmp?
  {
    var c := Subject(n, ctx);
    && n.fact != "state" && n.value.VStr?
    && ctx.facts(c, n.fact).Some? && ToNumeric(ctx.facts(c, n.fact).value).Some?
    && ctx.num.parse(n.value.s).None?
    && ctx.facts(c, n.value.s).None?
    && ctx.vars(c, n.value.s).Number?
  }

  /** A decided comparison keeps its result whatever else is learnt exactly when it does not rest on a var:
      when it does, a fact of that name arriving can turn it round. */
  lemma DecidedForGood(n: Node, ctx: Ctx)
    requires n.Cmp? && EvalCmp(n, ctx).Decided?
    ensures !ReadsVar(n, ctx) <==> (forall ctx' :: Below(ctx, ctx') ==> EvalCmp(n, ctx') == EvalCmp(n, ctx))
  {
    var c := Subject(n, ctx);
    if ReadsVar(n, ctx) {
      var a, b := ToNumeric(ctx.facts(c, n.fact).value).value, ctx.vars(c, n.value.s).r;
      var ctx' := Learn(ctx, c, n.value.s, VNum(Flip(n.op, a, b)));
      FlipFlips(n.op, a, b);
      assert Below(ctx, ctx');
      assert ctx'.facts(c, n.fact) == ctx.facts(c, n.fact) by {
        assert n.fact != n.value.s;
      }
      assert EvalCmp(n, ctx') != EvalCmp(n, ctx);
    } else {
      forall ctx' | Below(ctx, ctx') ensures EvalCmp(n, ctx') == EvalCmp(n, ctx) {
        if n.fact != "state" {
          assert ctx'.facts(c, n.fact) == ctx.facts(c, n.fact);
          if n.value.VStr? && ctx.facts(c, n.value.s).Some? {
            assert ctx'.facts(c, n.value.s) == ctx.facts(c, n.value.s);
          }
        }
      }
    }
  }

  /** Where both sides fail the left error wins, so a senseless comparison to the left of one not read yet
      contradicts a predicate that the full facts make true; to its right it does no harm. */
  lemma HardErrorHidesTruth(num: Numerals)
    ensures var senseless, late := Cmp("", "up", Lt, VBool(true)), Cmp("", "down", Eq, VBool(true));
            var ctx := Ctx("c", (c, k) => if k == "up" then Some(VBool(true)) else None, (c, k) => Unset, map[], num);
            var full := Learn(ctx, "c", "down", VBool(true));
            && Below(ctx, full)
            && Eval(Or(senseless, late), full) == Decided(true) && CanFailHard(Or(senseless, late), full)
            && Eval(Or(senseless, late), ctx) == Hard
            && Eval(Or(late, senseless), full) == Decided(true) && !CanFailHard(Or(late, senseless), full)
            && Eval(Or(late, senseless), ctx) == Unresolved
  {}
}
