/** Facts made up to bring about a state: values that make its predicate come out as wanted. */
module Synthesis {
  import opened Expr

  type Bindings = map<string, Value>

  // ---------------------------------------------------------------- one comparison

  /** op when want, else its negation. */
  function FlipIfNotWant(op: Op, want: bool): Op {
    if want then op
    else
      match op
      case Eq => Neq
      case Neq => Eq
      case Lt => Gte
      case Gt => Lte
      case Lte => Gt
      case Gte => Lt
  }

  function SatisfyBool(op: Op, target: bool, want: bool): Option<Value> {
    match op
    case Eq => Some(VBool(target == want))
    case Neq => Some(VBool(target != want))
    case _ => None
  }

  /** How far from the target a value has to be. */
  function Offset(op: Op, want: bool): int {
    match FlipIfNotWant(op, want)
    case Eq => 0
    case Lte => 0
    case Gte => 0
    case Neq => 1
    case Gt => 1
    case Lt => -1
  }

  const NEGATED := "-neg"

  function SatisfyString(op: Op, target: string, want: bool): Option<Value> {
    match op
    case Eq => Some(VStr(if want then target else target + NEGATED))
    case Neq => Some(VStr(if want then target + NEGATED else target))
    case _ => None
  }

  /** A value of the fact that makes the comparison with the literal v come out as wanted. */
  function SatisfyCmp(op: Op, v: Value, want: bool): Option<Value> {
    match v
    case VBool(b) => SatisfyBool(op, b, want)
    case VInt(i) => Some(VInt(i + Offset(op, want)))
    case VNum(r) => Some(VNum(r + Offset(op, want) as real))
    case VStr(s) => SatisfyString(op, s, want)
    case VOther => None
  }

  /** The same for two facts compared with each other. */
  function SatisfyBothFacts(op: Op, want: bool): (Value, Value) {
    match FlipIfNotWant(op, want)
    case Eq => (VInt(1), VInt(1))
    case Gt => (VInt(1), VInt(0))
    case Gte => (VInt(1), VInt(0))
    case _ => (VInt(0), VInt(1))
  }

  /** The right-hand side names another fact of the type. */
  predicate IsFactRef(n: Node, known: set<string>)
    requires n.Cmp?
  {
    n.value.VStr? && n.value.s != "" && n.value.s != n.fact && n.value.s in known
  }

  /** The value made up for a comparison, nearest first: the literal itself where it compares with itself as wanted; else one
      below where less is wanted, one above otherwise, and the word with an ending; booleans and words only for == and !=. */
  lemma MadeUpValue(op: Op, v: Value, want: bool)
    ensures SatisfyCmp(op, v, want) ==
            var itself, below := (op == Eq || op == Lte || op == Gte) == want, op == (if want then Lt else Gte);
            match v
            case VInt(i) => Some(VInt(if itself then i else if below then i - 1 else i + 1))
            case VNum(r) => Some(VNum(if itself then r else if below then r - 1.0 else r + 1.0))
            case VBool(b) => if op == Eq || op == Neq then Some(VBool(if itself then b else !b)) else None
            case VStr(s) => if op == Eq || op == Neq then Some(VStr(if itself then s else s + "-neg")) else None
            case VOther => None
  {
    match op { case Eq => case Neq => case Lt => case Gt => case Lte => case Gte => }
  }

  /** For two facts compared with each other: ones where they have to be equal; the first ahead where it must not be below; the
      second ahead otherwise. */
  lemma MadeUpPair(op: Op, want: bool)
    ensures SatisfyBothFacts(op, want) ==
            if op == (if want then Eq else Neq) then (VInt(1), VInt(1))
            else if op in (if want then {Gt, Gte} else {Lt, Lte}) then (VInt(1), VInt(0))
            else (VInt(0), VInt(1))
  {
    match op { case Eq => case Neq => case Lt => case Gt => case Lte => case Gte => }
  }

  /** An earlier binding is not overwritten. */
  function Bind(out: Bindings, fact: string, v: Value): Bindings {
    if fact in out then out else out[fact := v]
  }

  // ---------------------------------------------------------------- the walk over a predicate

  /** What a walk leaves: whether it met a state of its own that no fact can bring about, and the bindings. */
  datatype Walk = Walked(cross: bool, out: Bindings)

  function AssignCmp(n: Node, want: bool, out: Bindings, known: set<string>): Walk
    requires n.Cmp?
  {
    if n.fact == "" then Walked(false, out)
    else if n.fact == "state" then Walked(true, out)
    else if IsFactRef(n, known) then
      var (l, r) := SatisfyBothFacts(n.op, want);
      Walked(false, Bind(Bind(out, n.fact, l), n.value.s, r))
    else
      match SatisfyCmp(n.op, n.value, want)
      case None => Walked(false, out)
      case Some(v) => Walked(false, Bind(out, n.fact, v))
  }

  predicate Conflicts(candidate: Bindings, existing: Bindings) {
    exists k :: k in candidate && k in existing && existing[k] != candidate[k]
  }

  /** Of two branches the first that binds something without a conflict, else the first that binds something. */
  function Choose(l: Walk, r: Walk, out: Bindings): Walk {
    var lok, rok := !l.cross && l.out != map[], !r.cross && r.out != map[];
    if lok && !Conflicts(l.out, out) then Walked(false, l.out + out)
    else if rok && !Conflicts(r.out, out) then Walked(false, r.out + out)
    else if lok then Walked(false, l.out + out)
    else if rok then Walked(false, r.out + out)
    else Walked(l.cross && r.cross, out)
  }

  function Assign(n: Node, want: bool, out: Bindings, known: set<string>): Walk {
    match n
    case Cmp(_, _, _, _) => AssignCmp(n, want, out, known)
    case And(l, r) =>
      var first := Assign(l, want, out, known);
      if first.cross then first else Assign(r, want, first.out, known)
    case Or(l, r) => Choose(Assign(l, want, map[], known), Assign(r, want, map[], known), out)
  }

  /** The bindings, written as the walk goes. */
  class Writer {
    const known: set<string>
    var out: Bindings

    constructor (known: set<string>)
      ensures this.known == known && out == map[]
    {
      this.known, out := known, map[];
    }

    method BindOnce(fact: string, v: Value)
      modifies this
      ensures out == Bind(old(out), fact, v)
    {
      if fact !in out { out := out[fact := v]; }
    }

    method AssignFromCmp(n: Node, want: bool) returns (cross: bool)
      requires n.Cmp?
      modifies this
      ensures Walked(cross, out) == AssignCmp(n, want, old(out), known)
    {
      if n.fact == "" { return false; }
      if n.fact == "state" { return true; }
      if IsFactRef(n, known) {
        var (l, r) := SatisfyBothFacts(n.op, want);
        BindOnce(n.fact, l);
        BindOnce(n.value.s, r);
        return false;
      }
      var v := SatisfyCmp(n.op, n.value, want);
      if v.None? { return false; }
      BindOnce(n.fact, v.value);
      return false;
    }

    method MergeInto(src: Bindings)
      modifies this
      ensures out == src + old(out)
    {
      var left := src.Keys;
      while left != {}
        invariant left <= src.Keys
        invariant out == (map k | k in src && k !in left :: src[k]) + old(out)
        decreases left
      {
        var k :| k in left;
        left := left - {k};
        if k !in out { out := out[k := src[k]]; }
      }
    }

    method AssignFromNode(n: Node, want: bool) returns (cross: bool)
      modifies this
      ensures Walked(cross, out) == Assign(n, want, old(out), known)
      decreases n
    {
      match n
      case Cmp(_, _, _, _) => cross := AssignFromCmp(n, want);
      case And(l, r) =>
        cross := AssignFromNode(l, want);
        if cross { return; }
        cross := AssignFromNode(r, want);
      case Or(l, r) =>
        var left := new Writer(known);
        var right := new Writer(known);
        var leftCross := left.AssignFromNode(l, want);
        var rightCross := right.AssignFromNode(r, want);
        var leftOK, rightOK := !leftCross && |left.out| > 0, !rightCross && |right.out| > 0;
        if leftOK && !Conflicts(left.out, out) {
          MergeInto(left.out);
        } else if rightOK && !Conflicts(right.out, out) {
          MergeInto(right.out);
        } else if leftOK {
          MergeInto(left.out);
        } else if rightOK {
          MergeInto(right.out);
        } else {
          return leftCross && rightCross;
        }
        return false;
    }
  }

  /** deriveSatisfyingAssignments: the bindings, or none where a state of its own is needed. */
  method DeriveSatisfyingAssignments(n: Node, want: bool, known: set<string>) returns (r: Option<Bindings>)
    ensures var w := Assign(n, want, map[], known); r == if w.cross then None else Some(w.out)
  {
    var writer := new Writer(known);
    var cross := writer.AssignFromNode(n, want);
    return if cross then None else Some(writer.out);
  }

  // ---------------------------------------------------------------- when it works

  /** The facts a walk over n can bind. */
  function Names(n: Node, known: set<string>): set<string> {
    match n
    case And(l, r) => Names(l, known) + Names(r, known)
    case Or(l, r) => Names(l, known) + Names(r, known)
    case Cmp(_, fact, _, v) =>
      (if fact != "" && fact != "state" then {fact} else {}) + (if IsFactRef(n, known) then {v.s} else {})
  }

  /** No fact is mentioned twice. */
  predicate Once(n: Node, known: set<string>) {
    match n
    case And(l, r) => Once(l, known) && Once(r, known) && Names(l, known) !! Names(r, known)
    case Or(l, r) => Once(l, known) && Once(r, known) && Names(l, known) !! Names(r, known)
    case Cmp(_, _, _, _) => true
  }

  /** n speaks of component c alone. */
  predicate Own(n: Node, c: string) {
    match n
    case And(l, r) => Own(l, c) && Own(r, c)
    case Or(l, r) => Own(l, c) && Own(r, c)
    case Cmp(d, _, _, _) => d == "" || d == c
  }

  /** A fact that the comparison's kind of literal can be compared with under its operator. */
  predicate Supported(n: Node, known: set<string>)
    requires n.Cmp?
  {
    n.fact != "" && n.fact != "state" && (IsFactRef(n, known) || SatisfyCmp(n.op, n.value, true).Some?)
  }

  /** A state of the component's own stands in the way. */
  predicate NeedsState(n: Node) {
    match n
    case And(l, r) => NeedsState(l) || NeedsState(r)
    case Or(l, r) => NeedsState(l) && NeedsState(r)
    case Cmp(_, fact, _, _) => fact == "state"
  }

  predicate Binds(n: Node, known: set<string>) {
    !NeedsState(n) &&
    match n
    case And(l, r) => Binds(l, known) || Binds(r, known)
    case Or(l, r) => Binds(l, known) || Binds(r, known)
    case Cmp(_, _, _, _) => Supported(n, known)
  }

  /** The branch of an Or that binds something first has to work; wanted false, an Or never does. */
  predicate Works(n: Node, want: bool, known: set<string>) {
    match n
    case And(l, r) => if want then Works(l, want, known) && Works(r, want, known) else Works(l, want, known) || Works(r, want, known)
    case Or(l, r) => want && if Binds(l, known) then Works(l, want, known) else Binds(r, known) && Works(r, want, known)
    case Cmp(_, _, _, _) => Supported(n, known)
  }

  lemma SupportIsOneWay(n: Node, want: bool)
    requires n.Cmp?
    ensures SatisfyCmp(n.op, n.value, want).Some? <==> SatisfyCmp(n.op, n.value, true).Some?
  {}

  /** What n alone binds. */
  function BoundBy(n: Node, want: bool, known: set<string>): Bindings {
    Assign(n, want, map[], known).out
  }

  /** Without a clash it does not matter what was bound before. */
  lemma ChooseAlone(l: Walk, r: Walk, out: Bindings)
    requires out.Keys !! l.out.Keys && out.Keys !! r.out.Keys
    ensures var w, alone := Choose(l, r, out), Choose(l, r, map[]);
            && w.cross == alone.cross == (l.cross && r.cross)
            && w.out == out + alone.out
            && alone.out.Keys <= l.out.Keys + r.out.Keys
            && (alone.out != map[] <==> (!l.cross && l.out != map[]) || (!r.cross && r.out != map[]))
  {
    assert !Conflicts(l.out, out) && !Conflicts(r.out, out) && !Conflicts(l.out, map[]) && !Conflicts(r.out, map[]);
    assert l.out + out == out + l.out && r.out + out == out + r.out;
    assert l.out + map[] == l.out && r.out + map[] == r.out;
  }

  /** Beside bindings of other facts the walk does what it does alone. */
  lemma {:induction false} WalksAlone(n: Node, want: bool, out: Bindings, known: set<string>)
    requires Once(n, known) && out.Keys !! Names(n, known)
    ensures var w := Assign(n, want, out, known);
            && w.cross == NeedsState(n)
            && w.out == out + BoundBy(n, want, known)
    ensures BoundBy(n, want, known).Keys <= Names(n, known)
    ensures !NeedsState(n) ==> (BoundBy(n, want, known) != map[] <==> Binds(n, known))
    decreases n
  {
    hide AssignCmp, Choose;
    match n
    case Cmp(_, _, _, _) => CmpAlone(n, want, out, known);
    case And(l, r) =>
      WalksAlone(l, want, out, known);
      WalksAlone(l, want, map[], known);
      if !NeedsState(l) {
        var alone := BoundBy(l, want, known);
        WalksAlone(r, want, out + alone, known);
        WalksAlone(r, want, alone, known);
        OneByOne(out, alone, BoundBy(r, want, known));
      }
    case Or(l, r) =>
      WalksAlone(l, want, map[], known);
      WalksAlone(r, want, map[], known);
      ChooseAlone(Assign(l, want, map[], known), Assign(r, want, map[], known), out);
  }

  lemma OneByOne(a: Bindings, b: Bindings, c: Bindings)
    ensures a + b + c == a + (b + c)
    ensures b + c == map[] <==> b == map[] && c == map[]
    ensures map[] + b == b
  {
    if b + c == map[] {
      assert forall k :: k in b ==> k in b + c;
      assert forall k :: k in c ==> k in b + c;
      assert b == map[] && c == map[];
    }
  }

  lemma CmpAlone(n: Node, want: bool, out: Bindings, known: set<string>)
    requires n.Cmp? && out.Keys !! Names(n, known)
    ensures var w := AssignCmp(n, want, out, known);
            && w.cross == NeedsState(n)
            && w.out == out + BoundBy(n, want, known)
    ensures BoundBy(n, want, known).Keys <= Names(n, known)
    ensures !NeedsState(n) ==> (BoundBy(n, want, known) != map[] <==> Binds(n, known))
  {
    SupportIsOneWay(n, want);
  }

  // ---------------------------------------------------------------- evaluating what was made up

  /** Numerals as they are: no fact is named like one, and nothing that ends in the negated mark reads as one. */
  ghost predicate PlainNumerals(num: Numerals, known: set<string>) {
    (forall s :: s in known ==> num.parse(s).None?) && forall s :: num.parse(s + NEGATED).None?
  }

  /** Of the facts of names, ctx knows those in b and no others. */
  ghost predicate Knows(ctx: Ctx, names: set<string>, b: Bindings) {
    && (forall k :: k in names ==> ctx.facts(ctx.current, k) == if k in b then Some(b[k]) else None)
    && ctx.states == map[]
    && (forall c, k :: ctx.vars(c, k).Unset?)
  }

  /** With none of its facts known a predicate is not decided. */
  lemma {:induction false} NothingKnown(n: Node, ctx: Ctx, known: set<string>, b: Bindings)
    requires Own(n, ctx.current) && Knows(ctx, Names(n, known), b) && b.Keys !! Names(n, known)
    requires ctx.facts(ctx.current, "").None?
    ensures Eval(n, ctx) == Unresolved
  {
    match n
    case And(l, r) => NothingKnown(l, ctx, known, b); NothingKnown(r, ctx, known, b);
    case Or(l, r) => NothingKnown(l, ctx, known, b); NothingKnown(r, ctx, known, b);
    case Cmp(_, _, _, _) =>
  }

  lemma OffsetWorks(op: Op, want: bool, target: real)
    ensures CompareFloats(op, target + Offset(op, want) as real, target) == want
  {}

  lemma CmpWorks(n: Node, want: bool, ctx: Ctx, known: set<string>)
    requires n.Cmp? && Own(n, ctx.current) && PlainNumerals(ctx.num, known) && ctx.facts(ctx.current, "").None?
    requires Knows(ctx, Names(n, known), BoundBy(n, want, known))
    ensures Eval(n, ctx) == Decided(want) <==> Works(n, want, known)
  {
    SupportIsOneWay(n, want);
    var c := ctx.current;
    if Supported(n, known) {
      if IsFactRef(n, known) {
        var (l, r) := SatisfyBothFacts(n.op, want);
        assert ctx.facts(c, n.fact) == Some(l) && ctx.facts(c, n.value.s) == Some(r);
      } else {
        assert ctx.facts(c, n.fact) == SatisfyCmp(n.op, n.value, want);
        match n.value
        case VInt(i) => OffsetWorks(n.op, want, i as real);
        case VNum(r) => OffsetWorks(n.op, want, r);
        case VStr(s) => assert s + NEGATED != s by { assert |s + NEGATED| > |s|; }
        case _ =>
      }
    } else if n.fact != "" && n.fact != "state" {
      assert ctx.facts(c, n.fact).None?;
    }
  }

  lemma KnowsPart(ctx: Ctx, names: set<string>, b: Bindings, part: set<string>, b': Bindings)
    requires Knows(ctx, names, b) && part <= names
    requires forall k :: k in part ==> (k in b <==> k in b') && (k in b ==> b[k] == b'[k])
    ensures Knows(ctx, part, b')
  {}

  /** Where no state of its own is needed, the predicate comes out as wanted on exactly the facts made up for it if
      and only if every And and the branch chosen of every Or can be made to. */
  lemma {:induction false} ComesOut(n: Node, want: bool, ctx: Ctx, known: set<string>)
    requires Own(n, ctx.current) && Once(n, known) && PlainNumerals(ctx.num, known) && !NeedsState(n)
    requires ctx.facts(ctx.current, "").None? && Knows(ctx, Names(n, known), BoundBy(n, want, known))
    ensures Eval(n, ctx) == Decided(want) <==> Works(n, want, known)
    decreases n
  {
    hide Knows, PlainNumerals, EvalCmp, AssignCmp;
    match n
    case Cmp(_, _, _, _) => CmpWorks(n, want, ctx, known);
    case And(l, r) =>
      var b := BoundBy(n, want, known);
      WalksAlone(l, want, map[], known);
      WalksAlone(r, want, map[], known);
      WalksAlone(r, want, BoundBy(l, want, known), known);
      KnowsPart(ctx, Names(n, known), b, Names(l, known), BoundBy(l, want, known));
      KnowsPart(ctx, Names(n, known), b, Names(r, known), BoundBy(r, want, known));
      ComesOut(l, want, ctx, known);
      ComesOut(r, want, ctx, known);
    case Or(l, r) =>
      OrComesOut(l, r, want, ctx, known);
  }

  lemma OrComesOut(l: Node, r: Node, want: bool, ctx: Ctx, known: set<string>)
    requires var n := Or(l, r);
             && Own(n, ctx.current) && Once(n, known) && PlainNumerals(ctx.num, known) && !NeedsState(n)
             && ctx.facts(ctx.current, "").None? && Knows(ctx, Names(n, known), BoundBy(n, want, known))
    ensures Eval(Or(l, r), ctx) == Decided(want) <==> Works(Or(l, r), want, known)
    decreases Or(l, r), 0
  {
    hide Knows, PlainNumerals, EvalCmp, AssignCmp;
    var n := Or(l, r);
    var b := BoundBy(n, want, known);
    WalksAlone(l, want, map[], known);
    WalksAlone(r, want, map[], known);
    KnowsPart(ctx, Names(n, known), b, Names(l, known), b);
    KnowsPart(ctx, Names(n, known), b, Names(r, known), b);
    if Binds(l, known) {
      assert b == BoundBy(l, want, known);
      ComesOut(l, want, ctx, known);
      NothingKnown(r, ctx, known, b);
    } else if Binds(r, known) {
      assert b == BoundBy(r, want, known);
      ComesOut(r, want, ctx, known);
      NothingKnown(l, ctx, known, b);
    } else {
      assert b == map[];
      NothingKnown(l, ctx, known, b);
      NothingKnown(r, ctx, known, b);
    }
  }

  // ---------------------------------------------------------------- facts made up for a state

  /** The context in which exactly the facts of b are known, of component c. */
  function Under(c: string, b: Bindings, num: Numerals): Ctx {
    Ctx(c, (d: string, k: string) => if d == c && k in b then Some(b[k]) else None, (d: string, k: string) => Unset, map[], num)
  }

  /** For every predicate over its own component that mentions no fact twice: facts are refused exactly where a state
      of its own is needed, and on the facts made up it comes out as wanted exactly where it can be made to. */
  lemma {:induction false} MadeUpFacts(n: Node, want: bool, known: set<string>, c: string, num: Numerals)
    requires Own(n, c) && Once(n, known) && PlainNumerals(num, known)
    ensures Assign(n, want, map[], known).cross <==> NeedsState(n)
    ensures !NeedsState(n) ==> BoundBy(n, want, known).Keys <= Names(n, known)
    ensures !NeedsState(n) ==> (Eval(n, Under(c, BoundBy(n, want, known), num)) == Decided(want) <==> Works(n, want, known))
  {
    hide PlainNumerals, Assign;
    WalksAlone(n, want, map[], known);
    if !NeedsState(n) {
      NamesNamed(n, known);
      ComesOut(n, want, Under(c, BoundBy(n, want, known), num), known);
    }
  }

  lemma {:induction false} NamesNamed(n: Node, known: set<string>)
    ensures "" !in Names(n, known)
  {
    match n
    case And(l, r) => NamesNamed(l, known); NamesNamed(r, known);
    case Or(l, r) => NamesNamed(l, known); NamesNamed(r, known);
    case Cmp(_, _, _, _) =>
  }

  /** Every comparison is one that a made-up fact can satisfy. */
  predicate AllSupported(n: Node, known: set<string>) {
    match n
    case And(l, r) => AllSupported(l, known) && AllSupported(r, known)
    case Or(l, r) => AllSupported(l, known) && AllSupported(r, known)
    case Cmp(_, _, _, _) => Supported(n, known)
  }

  /** Some comparison makes it false by itself. */
  predicate FalseByOne(n: Node) {
    match n
    case And(l, r) => FalseByOne(l) || FalseByOne(r)
    case Or(_, _) => false
    case Cmp(_, _, _, _) => true
  }

  lemma {:induction false} SupportedWorks(n: Node, known: set<string>)
    requires AllSupported(n, known)
    ensures !NeedsState(n) && Binds(n, known) && Works(n, true, known) && (Works(n, false, known) <==> FalseByOne(n))
  {
    match n
    case And(l, r) => SupportedWorks(l, known); SupportedWorks(r, known);
    case Or(l, r) => SupportedWorks(l, known); SupportedWorks(r, known);
    case Cmp(_, _, _, _) =>
  }

  /** Where every comparison is supported the predicate is made true, branches of an Or left unbound included. To make
      it false one branch of an Or is not enough, so there it works if and only if something outside every Or is false. */
  lemma {:induction false} SupportedComesTrue(n: Node, known: set<string>, c: string, num: Numerals)
    requires Own(n, c) && Once(n, known) && PlainNumerals(num, known) && AllSupported(n, known)
    ensures !Assign(n, true, map[], known).cross && !Assign(n, false, map[], known).cross
    ensures Eval(n, Under(c, BoundBy(n, true, known), num)) == Decided(true)
    ensures Eval(n, Under(c, BoundBy(n, false, known), num)) == Decided(false) <==> FalseByOne(n)
  {
    hide PlainNumerals, Assign, Eval;
    SupportedWorks(n, known);
    MadeUpFacts(n, true, known, c, num);
    MadeUpFacts(n, false, known, c, num);
  }

  // ---------------------------------------------------------------- facts mentioned more than once

  predicate Conjunction(n: Node) {
    match n
    case And(l, r) => Conjunction(l) && Conjunction(r)
    case Or(_, _) => false
    case Cmp(_, _, _, _) => true
  }

  /** The comparisons of n, left to right. */
  function Clauses(n: Node): seq<Node> {
    match n
    case And(l, r) => Clauses(l) + Clauses(r)
    case _ => [n]
  }

  /** Comparisons of c's own facts, all of the type and all supported. */
  ghost predicate OwnClauses(cs: seq<Node>, known: set<string>, c: string) {
    "" !in known && forall i :: 0 <= i < |cs| ==>
      cs[i].Cmp? && Own(cs[i], c) && Supported(cs[i], known) && Names(cs[i], known) <= known
  }

  /** What the comparisons bind, one after the other, beside what is bound. */
  function BindOn(out: Bindings, cs: seq<Node>, want: bool, known: set<string>): Bindings {
    if cs == [] then out
    else
      var n := cs[|cs| - 1];
      if n.Cmp? then AssignCmp(n, want, BindOn(out, cs[..|cs| - 1], want, known), known).out else BindOn(out, cs[..|cs| - 1], want, known)
  }

  lemma {:induction false} BindOnAppend(out: Bindings, a: seq<Node>, b: seq<Node>, want: bool, known: set<string>)
    ensures BindOn(out, a + b, want, known) == BindOn(BindOn(out, a, want, known), b, want, known)
  {
    if b == [] {
      assert a + b == a;
    } else {
      var n := |b| - 1;
      assert (a + b)[..|a + b| - 1] == a + b[..n];
      BindOnAppend(out, a, b[..n], want, known);
    }
  }

  lemma {:induction false} ClausesOf(n: Node, want: bool, known: set<string>, c: string)
    requires Conjunction(n) && Own(n, c) && AllSupported(n, known) && Names(n, known) <= known && "" !in known
    ensures OwnClauses(Clauses(n), known, c)
    ensures forall out :: Assign(n, want, out, known) == Walked(false, BindOn(out, Clauses(n), want, known))
  {
    hide AssignCmp;
    match n
    case And(l, r) =>
      ClausesOf(l, want, known, c);
      ClausesOf(r, want, known, c);
      forall out { BindOnAppend(out, Clauses(l), Clauses(r), want, known); }
    case Cmp(_, _, _, _) =>
      forall out ensures Assign(n, want, out, known) == Walked(false, BindOn(out, [n], want, known)) {
        assert BindOn(out, [n][..0], want, known) == out;
        NeverCross(n, want, out, known);
      }
  }

  lemma NeverCross(n: Node, want: bool, out: Bindings, known: set<string>)
    requires n.Cmp? && Supported(n, known)
    ensures !AssignCmp(n, want, out, known).cross
  {}

  /** A conjunction is true exactly when each of its comparisons is. */
  lemma {:induction false} AllTrue(n: Node, ctx: Ctx)
    requires Conjunction(n)
    ensures Eval(n, ctx) == Decided(true) <==> forall j :: 0 <= j < |Clauses(n)| ==> Eval(Clauses(n)[j], ctx) == Decided(true)
  {
    hide EvalCmp;
    match n
    case And(l, r) =>
      AllTrue(l, ctx);
      AllTrue(r, ctx);
      BothTrue(Clauses(l), Clauses(r), ctx);
      assert Clauses(n) == Clauses(l) + Clauses(r);
      assert Eval(n, ctx) == EvalAnd(Eval(l, ctx), Eval(r, ctx));
    case Cmp(_, _, _, _) => assert Clauses(n) == [n] && [n][0] == n;
  }

  lemma BothTrue(a: seq<Node>, b: seq<Node>, ctx: Ctx)
    ensures (forall j :: 0 <= j < |a + b| ==> Eval((a + b)[j], ctx) == Decided(true)) <==>
            (forall j :: 0 <= j < |a| ==> Eval(a[j], ctx) == Decided(true)) && forall j :: 0 <= j < |b| ==> Eval(b[j], ctx) == Decided(true)
  {
    hide Eval;
    assert forall j :: 0 <= j < |a| ==> (a + b)[j] == a[j];
    forall j | 0 <= j < |b| ensures (a + b)[|a| + j] == b[j] {}
    if forall j :: 0 <= j < |a + b| ==> Eval((a + b)[j], ctx) == Decided(true) {
      forall j | 0 <= j < |b| ensures Eval(b[j], ctx) == Decided(true) { assert (a + b)[|a| + j] == b[j]; }
    }
  }

  /** A supported comparison binds those of its facts that are not bound yet, as it would alone, and no others. */
  lemma BindOne(n: Node, want: bool, out: Bindings, known: set<string>)
    requires n.Cmp? && Supported(n, known)
    ensures var out', alone := AssignCmp(n, want, out, known).out, BoundBy(n, want, known);
            && out'.Keys == out.Keys + Names(n, known) && alone.Keys == Names(n, known)
            && forall k :: k in out' ==> out'[k] == if k in out then out[k] else alone[k]
  {
    SupportIsOneWay(n, want);
  }

  lemma OwnPart(cs: seq<Node>, known: set<string>, c: string, k: nat)
    requires OwnClauses(cs, known, c) && k <= |cs|
    ensures OwnClauses(cs[..k], known, c)
  {
    hide Own, Supported, Names;
    forall i | 0 <= i < k ensures cs[..k][i] == cs[i] {}
  }

  /** What a comparison binds, later ones do not change. */
  lemma {:induction false} BoundKept(cs: seq<Node>, want: bool, known: set<string>, c: string, j: nat)
    requires OwnClauses(cs, known, c) && j <= |cs|
    ensures var now, end := BindOn(map[], cs[..j], want, known), BindOn(map[], cs, want, known);
            && now.Keys <= end.Keys <= known && forall k :: k in now ==> end[k] == now[k]
    ensures forall k :: k in BindOn(map[], cs[..j], want, known) <==> exists i :: 0 <= i < j && k in Names(cs[i], known)
    decreases |cs|
  {
    hide AssignCmp, Names, Supported, Own;
    if cs == [] {
      assert cs[..j] == [];
    } else {
      var init, last := cs[..|cs| - 1], cs[|cs| - 1];
      OwnPart(cs, known, c, |init|);
      assert last == cs[|init|];
      BindOne(last, want, BindOn(map[], init, want, known), known);
      if j < |cs| {
        assert init[..j] == cs[..j];
        BoundKept(init, want, known, c, j);
      } else {
        assert cs[..j] == cs && init[..|init|] == init;
        BoundKept(init, want, known, c, |init|);
      }
    }
  }

  /** A comparison sees its own facts only. */
  lemma {:induction false} ClauseSees(n: Node, a: Bindings, b: Bindings, known: set<string>, c: string, num: Numerals)
    requires n.Cmp? && Own(n, c) && Supported(n, known) && "" !in known && a.Keys <= known && b.Keys <= known
    requires forall k :: k in Names(n, known) ==> k in a && k in b && a[k] == b[k]
    ensures Eval(n, Under(c, a, num)) == Eval(n, Under(c, b, num))
  {
    assert n.fact in Names(n, known);
    if n.value.VStr? && n.value.s in known && n.value.s != n.fact { assert n.value.s in Names(n, known); }
  }

  /** An earlier comparison mentions one of its facts. */
  predicate Revisits(cs: seq<Node>, j: nat, known: set<string>)
    requires j < |cs|
  {
    exists i :: 0 <= i < j && !(Names(cs[i], known) !! Names(cs[j], known))
  }

  /** Facts of its own make a comparison come out as wanted. */
  lemma {:induction false} FreshComesOut(n: Node, want: bool, out: Bindings, known: set<string>, c: string, num: Numerals)
    requires n.Cmp? && Own(n, c) && Supported(n, known) && PlainNumerals(num, known) && "" !in known
    requires out.Keys <= known && Names(n, known) <= out.Keys
    requires forall k :: k in Names(n, known) ==> k in BoundBy(n, want, known) && out[k] == BoundBy(n, want, known)[k]
    ensures Eval(n, Under(c, out, num)) == Decided(want)
  {
    hide PlainNumerals, EvalCmp, AssignCmp, Supported;
    CmpWorks(n, want, Under(c, out, num), known);
  }

  /** Conjunctions of comparisons, facts mentioned as often as one likes: the facts made up bring it about if and only if
      every comparison that mentions a fact again is content with what is bound when its turn comes. */
  lemma {:induction false} ConjunctionComesTrue(n: Node, known: set<string>, c: string, num: Numerals)
    requires Conjunction(n) && Own(n, c) && AllSupported(n, known) && Names(n, known) <= known
    requires PlainNumerals(num, known) && "" !in known
    ensures !Assign(n, true, map[], known).cross
    ensures Eval(n, Under(c, BoundBy(n, true, known), num)) == Decided(true) <==>
            forall j :: 0 <= j < |Clauses(n)| && Revisits(Clauses(n), j, known) ==>
              Eval(Clauses(n)[j], Under(c, BindOn(map[], Clauses(n)[..j + 1], true, known), num)) == Decided(true)
  {
    ClausesOf(n, true, known, c);
    hide Assign, AssignCmp, Eval, Clauses, Names, Supported, Own, PlainNumerals, BindOn;
    var cs, b := Clauses(n), BoundBy(n, true, known);
    AllTrue(n, Under(c, b, num));
    forall j | 0 <= j < |cs|
      ensures Eval(cs[j], Under(c, b, num)) == Eval(cs[j], Under(c, BindOn(map[], cs[..j + 1], true, known), num))
      ensures !Revisits(cs, j, known) ==> Eval(cs[j], Under(c, b, num)) == Decided(true)
    {
      AtItsTurn(cs, j, true, known, c, num);
    }
  }

  /** What a comparison finds when its turn comes it finds in the end; and where it is the first to mention its facts it
      comes out as wanted. */
  lemma {:induction false} AtItsTurn(cs: seq<Node>, j: nat, want: bool, known: set<string>, c: string, num: Numerals)
    requires OwnClauses(cs, known, c) && PlainNumerals(num, known) && j < |cs|
    ensures var now, end := BindOn(map[], cs[..j + 1], want, known), BindOn(map[], cs, want, known);
            && Eval(cs[j], Under(c, end, num)) == Eval(cs[j], Under(c, now, num))
            && (!Revisits(cs, j, known) ==> Eval(cs[j], Under(c, end, num)) == Decided(want))
  {
    hide AssignCmp, Eval, Names, Supported, Own, PlainNumerals;
    var now, end, before := BindOn(map[], cs[..j + 1], want, known), BindOn(map[], cs, want, known), BindOn(map[], cs[..j], want, known);
    BoundKept(cs, want, known, c, j);
    BoundKept(cs, want, known, c, j + 1);
    assert cs[..j + 1][..j] == cs[..j];
    BindOne(cs[j], want, before, known);
    ClauseSees(cs[j], end, now, known, c, num);
    if !Revisits(cs, j, known) {
      FreshComesOut(cs[j], want, end, known, c, num);
    }
  }

  lemma {:induction false} FirstFalse(n: Node, ctx: Ctx)
    requires Conjunction(n)
    ensures Clauses(n) != [] && (Eval(Clauses(n)[0], ctx) == Decided(false) ==> Eval(n, ctx) == Decided(false))
  {
    hide EvalCmp;
    match n
    case And(l, r) =>
      FirstFalse(l, ctx);
      assert Clauses(n) == Clauses(l) + Clauses(r);
    case Cmp(_, _, _, _) => assert Clauses(n) == [n];
  }

  /** To make a conjunction false its first comparison is enough, and nothing later gets in its way. */
  lemma {:induction false} ConjunctionComesFalse(n: Node, known: set<string>, c: string, num: Numerals)
    requires Conjunction(n) && Own(n, c) && AllSupported(n, known) && Names(n, known) <= known
    requires PlainNumerals(num, known) && "" !in known
    ensures !Assign(n, false, map[], known).cross
    ensures Eval(n, Under(c, BoundBy(n, false, known), num)) == Decided(false)
  {
    ClausesOf(n, false, known, c);
    hide Assign, AssignCmp, Eval, Clauses, Names, Supported, Own, PlainNumerals, BindOn;
    FirstFalse(n, Under(c, BoundBy(n, false, known), num));
    AtItsTurn(Clauses(n), 0, false, known, c, num);
  }

  /** The i-th comparison is the first of its fact. */
  predicate FirstOf(cs: seq<Node>, i: nat)
    requires i < |cs| && forall l :: 0 <= l < |cs| ==> cs[l].Cmp?
  {
    forall l :: 0 <= l < i ==> cs[l].fact != cs[i].fact
  }

  /** Between facts and literals: if and only if the value bound by the first comparison of a fact satisfies every later
      comparison of it. */
  lemma {:induction false} LiteralsComeTrue(n: Node, known: set<string>, c: string, num: Numerals)
    requires Conjunction(n) && Own(n, c) && AllSupported(n, known) && Names(n, known) <= known
    requires PlainNumerals(num, known) && "" !in known
    requires forall i :: 0 <= i < |Clauses(n)| ==> Clauses(n)[i].Cmp? && !IsFactRef(Clauses(n)[i], known)
    ensures var cs := Clauses(n);
            Eval(n, Under(c, BoundBy(n, true, known), num)) == Decided(true) <==>
              forall i, j :: 0 <= i < j < |cs| && cs[i].fact == cs[j].fact && FirstOf(cs, i) ==>
                Eval(cs[j], Under(c, BoundBy(cs[i], true, known), num)) == Decided(true)
  {
    ClausesOf(n, true, known, c);
    ConjunctionComesTrue(n, known, c, num);
    hide Assign, AssignCmp, Eval, Clauses, Own, PlainNumerals, BindOn, Conjunction, AllSupported;
    var cs := Clauses(n);
    forall j | 0 <= j < |cs| && Revisits(cs, j, known) ensures exists i :: 0 <= i < j && cs[i].fact == cs[j].fact && FirstOf(cs, i) {
      var i := FirstBefore(cs, j, known, c);
    }
    forall i, j | 0 <= i < j < |cs| && cs[i].fact == cs[j].fact && FirstOf(cs, i)
      ensures Revisits(cs, j, known)
      ensures Eval(cs[j], Under(c, BindOn(map[], cs[..j + 1], true, known), num)) ==
              Eval(cs[j], Under(c, BoundBy(cs[i], true, known), num))
    {
      FirstBinds(cs, i, j, known, c, num);
    }
  }

  lemma {:induction false} FirstBefore(cs: seq<Node>, j: nat, known: set<string>, c: string) returns (i: nat)
    requires OwnClauses(cs, known, c) && (forall l :: 0 <= l < |cs| ==> !IsFactRef(cs[l], known))
    requires j < |cs| && Revisits(cs, j, known)
    ensures i < j && cs[i].fact == cs[j].fact && FirstOf(cs, i)
  {
    i :| 0 <= i < j && !(Names(cs[i], known) !! Names(cs[j], known));
    while !FirstOf(cs, i)
      invariant i < j && cs[i].fact == cs[j].fact
      decreases i
    {
      var l :| 0 <= l < i && cs[l].fact == cs[i].fact;
      i := l;
    }
  }

  lemma {:induction false} FirstBinds(cs: seq<Node>, i: nat, j: nat, known: set<string>, c: string, num: Numerals)
    requires OwnClauses(cs, known, c) && (forall l :: 0 <= l < |cs| ==> !IsFactRef(cs[l], known))
    requires i < j < |cs| && cs[i].fact == cs[j].fact && FirstOf(cs, i)
    ensures Revisits(cs, j, known)
    ensures Eval(cs[j], Under(c, BindOn(map[], cs[..j + 1], true, known), num)) == Eval(cs[j], Under(c, BoundBy(cs[i], true, known), num))
  {
    hide AssignCmp, Eval, Own;
    var now, first, before := BindOn(map[], cs[..j + 1], true, known), BindOn(map[], cs[..i + 1], true, known), BindOn(map[], cs[..i], true, known);
    var head := cs[..j + 1];
    assert head[..i + 1] == cs[..i + 1] && head[..i] == cs[..i] && cs[..i + 1][..i] == cs[..i];
    BoundKept(head, true, known, c, i + 1);
    BoundKept(head, true, known, c, i);
    BindOne(cs[i], true, before, known);
    assert cs[i].fact in Names(cs[i], known) && cs[j].fact in Names(cs[j], known);
    ClauseSees(cs[j], now, BoundBy(cs[i], true, known), known, c, num);
  }

  /** A fact mentioned twice is bound by its first comparison alone, which the second may not be content with. */
  lemma TwiceMentioned(num: Numerals)
    ensures var n := And(Cmp("", "n", Gt, VInt(1)), Cmp("", "n", Gt, VInt(5)));
            && AllSupported(n, {"n"}) && !Once(n, {"n"})
            && Eval(n, Under("c", map["n" := VInt(9)], num)) == Decided(true)
            && Eval(n, Under("c", BoundBy(n, true, {"n"}), num)) == Decided(false)
  {
    var n := And(Cmp("", "n", Gt, VInt(1)), Cmp("", "n", Gt, VInt(5)));
    assert BoundBy(n, true, {"n"}) == map["n" := VInt(2)];
  }
}
