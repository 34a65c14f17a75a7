/** Facts that show a state, healthy or not as wanted: the same search, over values ordered to read plainly. */
module Witnesses {
  import opened Ordering
  import opened Expr
  import opened Consistency

  // ---------------------------------------------------------------- the values, reordered

  function Longest(vals: seq<Value>): nat {
    if vals == [] then 0
    else
      var rest, last := Longest(vals[..|vals| - 1]), vals[|vals| - 1];
      if last.VStr? && |last.s| > rest then |last.s| else rest
  }

  lemma {:induction false} NoneLonger(vals: seq<Value>, s: string)
    requires VStr(s) in vals
    ensures |s| <= Longest(vals)
  {
    var init, last := vals[..|vals| - 1], vals[|vals| - 1];
    assert vals == init + [last];
    if VStr(s) in init { NoneLonger(init, s); }
  }

  /** other, made longer until vals does not hold it. */
  function OtherFrom(vals: seq<Value>, other: string): (r: string)
    ensures VStr(r) !in vals
    decreases if VStr(other) in vals then Longest(vals) + 1 - |other| else 0
  {
    if VStr(other) in vals then
      NoneLonger(vals, other);
      assert VStr(other + "-value") in vals ==> |other + "-value"| <= Longest(vals) by {
        if VStr(other + "-value") in vals { NoneLonger(vals, other + "-value"); }
      }
      OtherFrom(vals, other + "-value")
    else other
  }

  const OTHER := "other"

  function Zero(kind: Kind): Value {
    if kind.KInt? then VInt(0) else VNum(0.0)
  }

  function IsNot(v: Value): Value -> bool {
    (u: Value) => u != v
  }

  /** A word the type does not name after those it does; zero before other numbers, or after them where facts are
      compared with one another. */
  function Plainly(kind: Kind, relative: bool, vals: seq<Value>): seq<Value> {
    match kind
    case KBool => vals
    case KStr => vals + [VStr(OtherFrom(vals, OTHER))]
    case _ =>
      var zero := Zero(kind);
      var rest := Filter(IsNot(zero), vals);
      if relative then rest + [zero] else [zero] + rest
  }

  /** base with as many endings. */
  function Ended(base: string, k: nat): string {
    if k == 0 then base else Ended(base, k - 1) + "-value"
  }

  lemma {:induction false} EndedOn(base: string, k: nat)
    ensures Ended(base + "-value", k) == Ended(base, k + 1)
  {
    if k > 0 { EndedOn(base, k - 1); }
  }

  /** The word made up is the one with the fewest endings that is not among vals. */
  lemma {:induction false} OtherIs(vals: seq<Value>, base: string) returns (k: nat)
    ensures OtherFrom(vals, base) == Ended(base, k) && VStr(Ended(base, k)) !in vals
    ensures forall j: nat :: j < k ==> VStr(Ended(base, j)) in vals
    decreases if VStr(base) in vals then Longest(vals) + 1 - |base| else 0
  {
    if VStr(base) !in vals { return 0; }
    NoneLonger(vals, base);
    if VStr(base + "-value") in vals { NoneLonger(vals, base + "-value"); }
    var i := OtherIs(vals, base + "-value");
    k := i + 1;
    EndedOn(base, i);
    forall j: nat | j < k ensures VStr(Ended(base, j)) in vals {
      if j > 0 {
        EndedOn(base, j - 1);
        assert VStr(Ended(base + "-value", j - 1)) in vals;
      }
    }
  }

  /** Booleans stay as they are; after the words comes one more, which is none of them and no longer than it has to be; and of
      numbers zero comes first, or last where facts are compared, with the others in the order they had. */
  lemma {:induction false} PlainlyMeans(kind: Kind, relative: bool, vals: seq<Value>)
    ensures kind.KBool? ==> Plainly(kind, relative, vals) == vals
    ensures kind.KStr? ==>
              exists k: nat :: Plainly(kind, relative, vals) == vals + [VStr(Ended("other", k))] && VStr(Ended("other", k)) !in vals &&
                (forall j: nat :: j < k ==> VStr(Ended("other", j)) in vals)
    ensures !kind.KBool? && !kind.KStr? ==>
              var plain, zero := Plainly(kind, relative, vals), if kind.KInt? then VInt(0) else VNum(0.0);
              var rest := if relative then plain[..|plain| - 1] else plain[1..];
              && |plain| >= 1 && zero == (if relative then plain[|plain| - 1] else plain[0])
              && rest == Filter((v: Value) => v != zero, vals)
  {
    if kind.KStr? { var k := OtherIs(vals, OTHER); }
    if !kind.KBool? && !kind.KStr? {
      var zero := Zero(kind);
      SameFilter(IsNot(zero), (v: Value) => v != zero, vals);
    }
  }

  lemma {:induction false} SameFilter(p: Value -> bool, q: Value -> bool, vals: seq<Value>)
    requires forall v :: p(v) == q(v)
    ensures Filter(p, vals) == Filter(q, vals)
  {
    if vals != [] { SameFilter(p, q, vals[..|vals| - 1]); }
  }

  function PlainTries(t: Subject, f: string): seq<Value>
    requires f in t.kinds
  {
    Plainly(t.kinds[f], Relative(t, f), TriesFor(t, f))
  }

  ghost predicate ArePlain(t: Subject, cands: Candidates) {
    && (forall f :: f in cands <==> f in t.kinds && TriesFor(t, f) != [])
    && (forall f :: f in cands ==> cands[f] == PlainTries(t, f))
  }

  ghost function PlainMap(t: Subject): Candidates {
    map f | f in t.kinds && TriesFor(t, f) != [] :: PlainTries(t, f)
  }

  method FreshOther(vals: seq<Value>) returns (other: string)
    ensures other == OtherFrom(vals, OTHER)
  {
    other := OTHER;
    while VStr(other) in vals
      invariant OtherFrom(vals, other) == OtherFrom(vals, OTHER)
      decreases if VStr(other) in vals then Longest(vals) + 1 - |other| else 0
    {
      NoneLonger(vals, other);
      var longer := other + "-value";
      if VStr(longer) in vals { NoneLonger(vals, longer); }
      other := longer;
    }
  }

  method WithoutValue(vals: seq<Value>, v: Value) returns (rest: seq<Value>)
    ensures rest == Filter(IsNot(v), vals)
  {
    rest := [];
    for i := 0 to |vals|
      invariant rest == Filter(IsNot(v), vals[..i])
    {
      assert vals[..i + 1][..i] == vals[..i];
      if vals[i] != v { rest := rest + [vals[i]]; }
    }
    assert vals[..|vals|] == vals;
  }

  /** Each fact's values put in their new order, in place. */
  method Reorder(t: Subject, cands0: Candidates, relative: set<string>) returns (cands: Candidates)
    requires AreCandidates(t, cands0) && forall f :: f in relative <==> Relative(t, f)
    ensures ArePlain(t, cands)
  {
    hide TriesFor, Relative, Filter, OtherFrom;
    cands := cands0;
    var left := cands0.Keys;
    while left != {}
      invariant left <= cands0.Keys == cands.Keys
      invariant forall f :: f in cands ==> cands[f] == if f in left then TriesFor(t, f) else PlainTries(t, f)
      decreases left
    {
      var f :| f in left;
      left := left - {f};
      var vals := cands[f];
      match t.kinds[f] {
        case KBool =>
        case KStr =>
          var other := FreshOther(vals);
          cands := cands[f := vals + [VStr(other)]];
        case _ =>
          var zero := if t.kinds[f].KInt? then VInt(0) else VNum(0.0);
          var rest := WithoutValue(vals, zero);
          cands := cands[f := if f in relative then rest + [zero] else [zero] + rest];
      }
    }
  }

  /** Nothing tried before is lost, and at most a zero or a word the type does not name is new. */
  lemma PlainlyHolds(kind: Kind, relative: bool, vals: seq<Value>)
    ensures forall v :: v in vals ==> v in Plainly(kind, relative, vals)
    ensures forall v :: v in Plainly(kind, relative, vals) ==>
              v in vals || (kind.KStr? && v == VStr(OtherFrom(vals, OTHER))) || ((kind.KInt? || kind.KNum?) && v == Zero(kind))
    ensures kind.KStr? ==> VStr(OtherFrom(vals, OTHER)) in Plainly(kind, relative, vals)
  {
    hide OtherFrom;
    FilterMeans(IsNot(Zero(kind)), vals);
  }

  lemma {:induction false} FilterOnce(p: Value -> bool, vals: seq<Value>)
    ensures NoDup(Filter(p, vals)) <==> forall i, j :: 0 <= i < j < |vals| && p(vals[i]) ==> vals[i] != vals[j]
  {
    if vals != [] {
      var init, last := vals[..|vals| - 1], vals[|vals| - 1];
      FilterOnce(p, init);
      FilterMeans(p, init);
      LastOnce(Filter(p, init), last);
      assert vals == init + [last];
    }
  }

  lemma LastOnce(vals: seq<Value>, v: Value)
    ensures NoDup(vals + [v]) <==> NoDup(vals) && v !in vals
  {
    var all := vals + [v];
    if NoDup(all) {
      forall i, j | 0 <= i < j < |vals| ensures vals[i] != vals[j] { assert all[i] != all[j]; }
      forall i | 0 <= i < |vals| ensures vals[i] != v { assert all[i] != all[|vals|]; }
    }
  }

  lemma FirstOnce(v: Value, vals: seq<Value>)
    ensures NoDup([v] + vals) <==> NoDup(vals) && v !in vals
  {
    var all := [v] + vals;
    if NoDup(all) {
      forall i, j | 0 <= i < j < |vals| ensures vals[i] != vals[j] { assert all[i + 1] != all[j + 1]; }
      forall i | 0 <= i < |vals| ensures vals[i] != v { assert all[i + 1] != all[0]; }
    }
  }

  /** Reordered, no value is listed twice exactly when none was, zero among the numbers aside. */
  lemma {:induction false} PlainlyOnce(kind: Kind, relative: bool, vals: seq<Value>)
    ensures NoDup(Plainly(kind, relative, vals)) <==>
            forall v :: Twice(vals, v) ==> (kind.KInt? || kind.KNum?) && v == Zero(kind)
  {
    hide OtherFrom, Twice;
    var zero := Zero(kind);
    OnceEach(vals);
    match kind
    case KBool =>
    case KStr => LastOnce(vals, VStr(OtherFrom(vals, OTHER)));
    case _ =>
      var rest := Filter(IsNot(zero), vals);
      FilterMeans(IsNot(zero), vals);
      FilterOnce(IsNot(zero), vals);
      LastOnce(rest, zero);
      FirstOnce(zero, rest);
      TwiceAside(vals, zero);
  }

  lemma TwiceAside(vals: seq<Value>, zero: Value)
    ensures (forall i, j :: 0 <= i < j < |vals| && vals[i] != zero ==> vals[i] != vals[j]) <==> forall v :: Twice(vals, v) ==> v == zero
  {
    forall i, j | 0 <= i < j < |vals| && vals[i] == vals[j] ensures Twice(vals, vals[i]) {}
  }

  /** A fact's reordered values hold none twice exactly when it is no count, or no two of its constants are close above
      zero and differ in their fractions. */
  lemma {:induction false} PlainOnceExactly(t: Subject, f: string)
    requires f in t.kinds
    ensures NoDup(PlainTries(t, f)) <==> Apart(t, f, 1)
  {
    hide TriesFor, Plainly, Relative, Constants, Crowded, SomeMeet, Twice;
    PlainlyOnce(t.kinds[f], Relative(t, f), TriesFor(t, f));
    if !t.kinds[f].KInt? {
      OthersOnce(t, f);
      OnceEach(TriesFor(t, f));
    } else {
      forall v { CountTwice(t, f, v); }
      CrowdedMeets(Constants(t, f), 1);
      if m :| m >= 1 && SomeMeet(Constants(t, f), m) { assert Twice(TriesFor(t, f), VInt(m)); }
    }
  }

  /** Where all combinations fit, no assignment is tried twice exactly when no count has two such constants. */
  lemma {:induction false} PlainAttemptsOnce(t: Subject, draw: (nat, nat) -> nat)
    requires FewPlain(t)
    ensures NoDup(Attempts(PlainMap(t), SortedNames(PlainMap(t).Keys), draw)) <==> forall f :: f in t.kinds ==> Apart(t, f, 1)
  {
    hide TriesFor, Plainly, Relative, Combos, Apart;
    var cands := PlainMap(t);
    SortedOnce(cands.Keys);
    forall f | f in t.kinds ensures NoDup(PlainTries(t, f)) <==> Apart(t, f, 1) { PlainOnceExactly(t, f); }
    forall f | f in t.kinds && f !in cands ensures Apart(t, f, 1) { NothingApart(t, f); }
    AttemptsOnce(cands, SortedNames(cands.Keys), draw);
  }

  /** With nothing to try there is nothing to try twice. */
  lemma NothingApart(t: Subject, f: string)
    requires f in t.kinds && TriesFor(t, f) == []
    ensures Apart(t, f, 1)
  {
    hide TriesFor, Constants;
    TriedOnceExactly(t, f);
  }

  // ---------------------------------------------------------------- what the facts may be

  /** A count, a boolean, or a word: one the type names, or one it does not that is no number in writing. */
  predicate Possible(t: Subject, f: string, v: Value)
    requires f in t.kinds
  {
    Fits(t, f, v) && (t.kinds[f].KStr? ==> v.s in Literals(t, f) || Unnamed(t, f, v))
  }

  ghost predicate CanBe(t: Subject, a: Assignment) {
    forall f :: f in PlainMap(t) ==> f in t.kinds && f in a && Possible(t, f, a[f])
  }

  ghost predicate CanShow(t: Subject, state: string, healthy: bool) {
    exists a :: CanBe(t, a) && HealthOf(t, a) == Health(state, healthy, true)
  }

  /** No word made up reads as a number. */
  ghost predicate PlainOthers(t: Subject) {
    forall f :: f in t.kinds && t.kinds[f].KStr? ==> t.num.parse(OtherFrom(TriesFor(t, f), OTHER)).None?
  }

  /** A word the type names is tried. */
  lemma {:induction false} LiteralTried(t: Subject, f: string, s: string)
    requires f in t.kinds && t.kinds[f].KStr? && s in Literals(t, f)
    ensures VStr(s) in TriesFor(t, f)
  {
    hide Literals, Constants;
    var names := SortedNames(Literals(t, f));
    var i :| 0 <= i < |names| && names[i] == s;
    assert TriesFor(t, f)[i] == VStr(s);
  }

  /** Whatever value a fact may have, one that is tried looks the same to every comparison. */
  lemma {:induction false} StandIn(t: Subject, f: string, u: Value) returns (v: Value)
    requires PlainSubject(t) && PlainOthers(t) && f in PlainMap(t) && Possible(t, f, u)
    ensures v in PlainMap(t)[f] && SameView(t, f, u, v) && Fits(t, f, v)
  {
    hide PlainSubject, TriesFor, Literals, Constants, Plainly, SameOrder, OtherFrom;
    PlainlyHolds(t.kinds[f], Relative(t, f), TriesFor(t, f));
    if Unnamed(t, f, u) && t.kinds[f].KStr? {
      v := VStr(OtherFrom(TriesFor(t, f), OTHER));
      assert Unnamed(t, f, v) by {
        assert v !in TriesFor(t, f);
        if v.s in Literals(t, f) { LiteralTried(t, f, v.s); }
      }
    } else {
      assert OfKind(t, f, u);
      v := Representative(t, CandidateMap(t), f, u);
      TriedOfKind(t, f, v);
    }
  }

  ghost function StandInFor(t: Subject, f: string, u: Value): (v: Value)
    requires PlainSubject(t) && PlainOthers(t) && f in PlainMap(t) && Possible(t, f, u)
    ensures v in PlainMap(t)[f] && SameView(t, f, u, v) && Fits(t, f, v)
  {
    assert exists v :: v in PlainMap(t)[f] && SameView(t, f, u, v) && Fits(t, f, v) by {
      var w := StandIn(t, f, u);
    }
    var v :| v in PlainMap(t)[f] && SameView(t, f, u, v) && Fits(t, f, v); v
  }

  /** Whatever the facts may be, words the type never names included, something tried gives the same state and health. */
  lemma {:induction false} PlainTriesAreEnough(t: Subject, a: Assignment)
    requires PlainSubject(t) && PlainOthers(t) && CanBe(t, a)
    ensures exists b :: Tried(PlainMap(t), b) && HealthOf(t, b) == HealthOf(t, a)
  {
    hide PlainSubject, PlainOthers, HealthOf, SameView, Possible, PlainTries, TriesFor, Unnamed;
    var b := map f | f in PlainMap(t) :: StandInFor(t, f, a[f]);
    assert Tried(PlainMap(t), b);
    forall f | f in CandidateMap(t) ensures f in a && f in b && Fits(t, f, a[f]) && Fits(t, f, b[f]) && SameView(t, f, a[f], b[f]) {
      assert f in PlainMap(t);
      PossibleFits(t, f, a[f]);
    }
    assert AreCandidates(t, CandidateMap(t)) && LooksSame(t, CandidateMap(t), a, b);
    HealthSame(t, CandidateMap(t), a, b);
  }

  lemma PossibleFits(t: Subject, f: string, v: Value)
    requires f in t.kinds && Possible(t, f, v)
    ensures Fits(t, f, v)
  {}

  /** ... and nothing tried is what the facts may not be. */
  lemma {:induction false} PlainTriedCanBe(t: Subject, b: Assignment)
    requires PlainSubject(t) && PlainOthers(t) && Tried(PlainMap(t), b)
    ensures CanBe(t, b)
  {
    forall f | f in PlainMap(t) ensures Possible(t, f, b[f]) {
      hide PlainSubject, TriesFor, Literals, Constants, Plainly, OtherFrom, Relative;
      assert b[f] in PlainMap(t)[f];
      PlainlyHolds(t.kinds[f], Relative(t, f), TriesFor(t, f));
      if b[f] in TriesFor(t, f) {
        TriedOfKind(t, f, b[f]);
      } else if t.kinds[f].KStr? {
        if b[f].s in Literals(t, f) { LiteralTried(t, f, b[f].s); }
      } else {
        NoDecimals(t, f);
      }
    }
  }

  /** A plain type never has anything to try for a decimal fact. */
  lemma {:induction false} NoDecimals(t: Subject, f: string)
    requires PlainSubject(t) && f in t.kinds && TriesFor(t, f) != []
    ensures !t.kinds[f].KNum?
  {
    hide Plain, Predicates;
    AllConstants(t, Predicates(t.rules, t.states), f);
    if t.kinds[f].KNum? { RisingMeans(Near(Constants(t, f), 0.001)); }
  }

  // ---------------------------------------------------------------- the search

  predicate Shows(t: Subject, a: Assignment, state: string, healthy: bool) {
    HealthOf(t, a) == Health(state, healthy, true)
  }

  function Look(t: Subject, state: string, healthy: bool): (Option<Assignment>, Assignment) -> (Option<Assignment>, bool) {
    (found: Option<Assignment>, a: Assignment) => if Shows(t, a, state, healthy) then (Some(a), false) else (found, true)
  }

  /** w is the first of l that shows it; none when none does. */
  ghost predicate FirstShown(t: Subject, l: seq<Assignment>, state: string, healthy: bool, w: Option<Assignment>) {
    match w
    case Some(a) =>
      exists i :: 0 <= i < |l| && l[i] == a && Shows(t, a, state, healthy) && forall j :: 0 <= j < i ==> !Shows(t, l[j], state, healthy)
    case None => forall a :: a in l ==> !Shows(t, a, state, healthy)
  }

  lemma {:induction false} LooksForFirst(t: Subject, l: seq<Assignment>, state: string, healthy: bool)
    ensures FirstShown(t, l, state, healthy, FoldUntil(Look(t, state, healthy), None, l))
    decreases |l|
  {
    hide Shows;
    if l != [] {
      assert l == [l[0]] + l[1..];
      if Shows(t, l[0], state, healthy) {
        assert FoldUntil(Look(t, state, healthy), None, l) == Some(l[0]);
      } else {
        LooksForFirst(t, l[1..], state, healthy);
        var w := FoldUntil(Look(t, state, healthy), None, l[1..]);
        assert FoldUntil(Look(t, state, healthy), None, l) == w;
        if w.Some? {
          var i :| 0 <= i < |l[1..]| && l[1..][i] == w.value && Shows(t, w.value, state, healthy) &&
                   forall j :: 0 <= j < i ==> !Shows(t, l[1..][j], state, healthy);
          assert l[i + 1] == w.value;
          forall j | 0 <= j < i + 1 ensures !Shows(t, l[j], state, healthy) {
            if j > 0 { assert l[1..][j - 1] == l[j]; }
          }
        }
      }
    }
  }

  /** All combinations of the reordered values fit the bound. */
  ghost predicate FewPlain(t: Subject) {
    NonEmpty(PlainMap(t), SortedNames(PlainMap(t).Keys)) &&
    Combos(PlainMap(t), SortedNames(PlainMap(t).Keys)) <= MAX_ASSIGNMENTS
  }

  lemma {:induction false} AllTried(cands: Candidates, draw: (nat, nat) -> nat)
    requires NonEmpty(cands, SortedNames(cands.Keys)) && Combos(cands, SortedNames(cands.Keys)) <= MAX_ASSIGNMENTS
    ensures forall b :: b in Attempts(cands, SortedNames(cands.Keys), draw) <==> Tried(cands, b)
  {
    hide Combination;
    var names := SortedNames(cands.Keys);
    SortedOnce(cands.Keys);
    var l := Attempts(cands, names, draw);
    forall b | b in l ensures Tried(cands, b) {
      var i :| 0 <= i < |l| && l[i] == b;
      CombinationTried(cands, names, i);
    }
    forall b | Tried(cands, b) ensures b in l {
      var i := CombinationReached(cands, names, b);
      CombinationTried(cands, names, i);
      assert l[i] == b;
    }
  }

  /** Witness: facts that show the state as wanted, the first tried that do -- and, where all combinations fit and the
      type compares like with like, some whenever any facts the component may have would. */
  method Witness(t: Subject, draw: (nat, nat) -> nat, state: string, healthy: bool) returns (w: Option<Assignment>)
    ensures w.Some? ==> Shows(t, w.value, state, healthy)
    ensures NonEmpty(PlainMap(t), SortedNames(PlainMap(t).Keys)) &&
            FirstShown(t, Attempts(PlainMap(t), SortedNames(PlainMap(t).Keys), draw), state, healthy, w)
    ensures PlainSubject(t) && PlainOthers(t) && FewPlain(t) ==> (w.Some? <==> CanShow(t, state, healthy))
  {
    hide Attempts, Look, Shows, PlainTries, TriesFor, Relative, PlainSubject, PlainOthers, FewPlain, CanShow;
    var cands0, relative := FindCandidates(t);
    var cands := Reorder(t, cands0, relative);
    assert cands == PlainMap(t);
    PlainNonEmpty(t);
    w := EachAssignment(cands, draw, Look(t, state, healthy), None);
    LooksForFirst(t, Attempts(cands, SortedNames(cands.Keys), draw), state, healthy);
    if PlainSubject(t) && PlainOthers(t) && FewPlain(t) {
      ShownIfCan(t, draw, state, healthy, w);
    }
  }

  lemma PlainNonEmpty(t: Subject)
    ensures NonEmpty(PlainMap(t), SortedNames(PlainMap(t).Keys))
  {
    hide TriesFor, Relative, SortedNames;
    forall n | n in SortedNames(PlainMap(t).Keys) ensures n in PlainMap(t) && PlainMap(t)[n] != [] {
      InSorted(PlainMap(t).Keys, n);
      PlainlyHolds(t.kinds[n], Relative(t, n), TriesFor(t, n));
      assert TriesFor(t, n)[0] in TriesFor(t, n);
    }
  }

  lemma InSorted(keys: set<string>, n: string)
    requires n in SortedNames(keys)
    ensures n in keys
  {}

  lemma {:induction false} ShownIfCan(t: Subject, draw: (nat, nat) -> nat, state: string, healthy: bool, w: Option<Assignment>)
    requires PlainSubject(t) && PlainOthers(t) && FewPlain(t)
    requires FirstShown(t, Attempts(PlainMap(t), SortedNames(PlainMap(t).Keys), draw), state, healthy, w)
    ensures w.Some? <==> CanShow(t, state, healthy)
  {
    hide Attempts, PlainMap, PlainSubject, PlainOthers, CanBe, HealthOf, Combos, SortedNames, Tried;
    AllTried(PlainMap(t), draw);
    if w.Some? { PlainTriedCanBe(t, w.value); }
    if CanShow(t, state, healthy) {
      var a :| CanBe(t, a) && HealthOf(t, a) == Health(state, healthy, true);
      PlainTriesAreEnough(t, a);
      var b :| Tried(PlainMap(t), b) && HealthOf(t, b) == HealthOf(t, a);
      assert Shows(t, b, state, healthy);
    }
  }
}
