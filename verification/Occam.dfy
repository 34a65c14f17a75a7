/** Shortest chain first: the next probe decided by listing every live chain, and without listing any. */
module Occam {
  import opened Ordering
  import opened FailureGraph
  import opened Chains
  import opened Enumeration
  import opened LiveChains
  import opened Layers
  import opened Expr
  import opened Facts
  import opened Models
  import opened LiveSet
  import opened ProbeChoice
  import Counting

  /** A component the operator suspects; in any state when state is "". */
  datatype Suspect = Suspect(component: string, state: string)

  datatype Situation = Situation(model: Model, log: Log, suspects: seq<Suspect>)

  datatype Reason = NoneMatches | AllVerified

  /** eliminates names scenarios the probe's component lies on, count says how many there are. */
  datatype Decision = Stuck(reason: Reason) | Done(rootCause: Named) | Ask(probe: Probe, eliminates: seq<Id>, count: nat)

  // ---------------------------------------------------------------- rank keys

  predicate Suspected(s: Scenario, h: Suspect) {
    && TouchesComponent(s, h.component)
    && (h.state == "" || exists i :: 0 <= i < |s.chain| && s.chain[i].component == h.component && s.chain[i].state == h.state)
  }

  predicate TouchesAnySuspect(s: Scenario, hints: seq<Suspect>) {
    exists i :: 0 <= i < |hints| && Suspected(s, hints[i])
  }

  /** A scenario with its rank keys: whether it is suspected, and how many others its next probe bears on. */
  datatype Ranked = Ranked(named: Named, suspect: bool, elim: int)

  function RankOf(sit: Situation, touch: string -> nat, n: Named): Ranked {
    var p := PickSymptomInward(sit.model, sit.log, n.scenario.chain);
    Ranked(n, TouchesAnySuspect(n.scenario, sit.suspects), if p.Some? then touch(p.value.component) - 1 else 0)
  }

  /** How chains of one length rank: suspected first, then the more telling probe, then scenario order. */
  predicate LayerLess(a: Ranked, b: Ranked) {
    if a.suspect != b.suspect then a.suspect
    else if a.elim != b.elim then a.elim > b.elim
    else Less(a.named.scenario, b.named.scenario)
  }

  predicate RankedLess(a: Ranked, b: Ranked) {
    if |a.named.scenario.chain| != |b.named.scenario.chain| then |a.named.scenario.chain| < |b.named.scenario.chain|
    else LayerLess(a, b)
  }

  lemma RankKeepsName(sit: Situation, touch: string -> nat, n: Named)
    ensures RankOf(sit, touch, n).named == n
  {}

  function RankAll(sit: Situation, touch: string -> nat, l: seq<Named>): seq<Ranked> {
    seq(|l|, i requires 0 <= i < |l| => RankOf(sit, touch, l[i]))
  }

  function Ordered(sit: Situation, touch: string -> nat, l: seq<Named>): (rs: seq<Ranked>)
    ensures |rs| == |l|
  {
    SortKeeps(RankedLess, RankAll(sit, touch, l));
    Sort(RankedLess, RankAll(sit, touch, l))
  }

  function LayerOrdered(sit: Situation, touch: string -> nat, l: seq<Named>): (rs: seq<Ranked>)
    ensures |rs| == |l|
  {
    SortKeeps(LayerLess, RankAll(sit, touch, l));
    Sort(LayerLess, RankAll(sit, touch, l))
  }

  function NamedTouches(c: string): Named -> bool {
    (n: Named) => TouchesComponent(n.scenario, c)
  }

  ghost function TouchCount(l: seq<Named>): string -> nat {
    (c: string) => CountIf(NamedTouches(c), l)
  }

  function TouchingIds(rs: seq<Ranked>, c: string): seq<Id> {
    if rs == [] then []
    else (if TouchesComponent(rs[0].named.scenario, c) then [rs[0].named.id] else []) + TouchingIds(rs[1..], c)
  }

  /** What is decided over the live scenarios. */
  ghost function DecisionOver(sit: Situation, live: seq<Named>): Decision {
    if |live| == 0 then Stuck(NoneMatches)
    else if |live| == 1 then Done(live[0])
    else
      var rs := Ordered(sit, TouchCount(live), live);
      var p := PickSymptomInward(sit.model, sit.log, rs[0].named.scenario.chain);
      if p.None? then Stuck(AllVerified)
      else
        var ids := TouchingIds(rs, p.value.component);
        Ask(p.value, ids, |ids|)
  }

  /** What is decided when the probes are priced by touch, whatever that counts. */
  ghost function PricedDecision(sit: Situation, touch: string -> nat, live: seq<Named>): Decision {
    if |live| == 0 then Stuck(NoneMatches)
    else if |live| == 1 then Done(live[0])
    else
      var rs := Ordered(sit, touch, live);
      var p := PickSymptomInward(sit.model, sit.log, rs[0].named.scenario.chain);
      if p.None? then Stuck(AllVerified) else Ask(p.value, TouchingIds(rs, p.value.component), touch(p.value.component))
  }

  // ---------------------------------------------------------------- deciding over a listing

  /** Each live scenario counts once for every component it touches, however many of its steps do. */
  method LiveTouchCounts(live: seq<Named>) returns (counts: map<string, nat>)
    ensures forall c :: Counting.Touched(counts, c) == CountIf(NamedTouches(c), live)
  {
    counts := map[];
    for i := 0 to |live|
      invariant forall c :: Counting.Touched(counts, c) == CountIf(NamedTouches(c), live[..i])
    {
      assert live[..i + 1][..i] == live[..i];
      var seen: set<string> := {};
      var chain := live[i].scenario.chain;
      for j := 0 to |chain|
        invariant forall c :: c in seen <==> exists k :: 0 <= k < j && chain[k].component == c
        invariant forall c :: Counting.Touched(counts, c) == CountIf(NamedTouches(c), live[..i]) + if c in seen then 1 else 0
      {
        var c := chain[j].component;
        if c !in seen {
          seen := seen + {c};
          counts := counts[c := Counting.Touched(counts, c) + 1];
        }
      }
      forall c ensures Counting.Touched(counts, c) == CountIf(NamedTouches(c), live[..i + 1]) {
        assert c in seen <==> NamedTouches(c)(live[i]);
      }
    }
    assert live[..|live|] == live;
  }

  method SuggestByListing(m: Model, store: Store, suspects: seq<Suspect>, scs: seq<Named>) returns (d: Decision)
    ensures d == DecisionOver(Situation(m, store.log, suspects), Filter(NamedLive(GraphLiveness(m, store.log)), scs))
  {
    hide PickSymptomInward, TouchesAnySuspect, Sort, Filter, GraphLiveness;
    var live := FilterLive(m, store, scs);
    if |live| == 0 { return Stuck(NoneMatches); }
    if |live| == 1 { return Done(live[0]); }
    var sit := Situation(m, store.log, suspects);
    var touches := LiveTouchCounts(live);
    var rs: seq<Ranked> := [];
    for i := 0 to |live|
      invariant rs == RankAll(sit, TouchCount(live), live[..i])
    {
      var elim := 0;
      var p := PickSymptomInward(m, store.log, live[i].scenario.chain);
      if p.Some? { elim := Counting.Touched(touches, p.value.component) - 1; }
      rs := rs + [Ranked(live[i], TouchesAnySuspect(live[i].scenario, suspects), elim)];
    }
    assert live[..|live|] == live;
    rs := Sort(RankedLess, rs);
    assert rs == Ordered(sit, TouchCount(live), live);
    var probe := PickSymptomInward(m, store.log, rs[0].named.scenario.chain);
    if probe.None? { return Stuck(AllVerified); }
    var ids: seq<Id> := [];
    for i := 0 to |rs|
      invariant ids + TouchingIds(rs[i..], probe.value.component) == TouchingIds(rs, probe.value.component)
    {
      if TouchesComponent(rs[i].named.scenario, probe.value.component) { ids := ids + [rs[i].named.id]; }
      assert rs[i..][1..] == rs[i + 1..];
    }
    return Ask(probe.value, ids, |ids|);
  }

  // ---------------------------------------------------------------- the ranking is an order

  lemma LayerLessWeak()
    ensures WeakOrder(LayerLess)
  {
    LessWeak();
  }

  lemma RankedLessWeak()
    ensures WeakOrder(RankedLess)
  {
    LayerLessWeak();
  }

  /** In scenario order, without repetition. */
  ghost predicate Ascending(l: seq<Named>) {
    forall i, j :: 0 <= i < j < |l| ==> Less(l[i].scenario, l[j].scenario)
  }

  lemma AscendingPart(l: seq<Named>, i: nat, j: nat)
    requires Ascending(l) && i <= j <= |l|
    ensures Ascending(l[i..j])
  {}

  /** Distinct scenarios never tie, so ranking lists them in one way only. */
  lemma {:induction false} RankAllSorts(sit: Situation, touch: string -> nat, l: seq<Named>)
    requires Ascending(l)
    ensures StrictlySorted(RankedLess, Ordered(sit, touch, l)) && SameElements(Ordered(sit, touch, l), RankAll(sit, touch, l))
    ensures StrictlySorted(LayerLess, LayerOrdered(sit, touch, l)) && SameElements(LayerOrdered(sit, touch, l), RankAll(sit, touch, l))
  {
    hide Less, RankOf, WeakOrder, NoTies, Ascending, StrictlySorted, NoDup, SameElements, Sort;
    RanksDiffer(sit, touch, l);
    RankedLessWeak();
    LayerLessWeak();
    SortStrictly(RankedLess, RankAll(sit, touch, l));
    SortStrictly(LayerLess, RankAll(sit, touch, l));
  }

  lemma {:induction false} RanksDiffer(sit: Situation, touch: string -> nat, l: seq<Named>)
    requires Ascending(l)
    ensures var rs := RankAll(sit, touch, l);
            NoDup(rs) && NoTies(RankedLess, rs) && NoTies(LayerLess, rs)
  {
    hide PickSymptomInward, TouchesAnySuspect, Less;
    var rs := RankAll(sit, touch, l);
    forall i, j | 0 <= i < j < |rs| ensures rs[i] != rs[j] && LayerOrdersThem(rs[i], rs[j]) {
      assert Less(l[i].scenario, l[j].scenario);
      assert rs[i].named == l[i] && rs[j].named == l[j];
      LessOrders(rs[i], rs[j]);
    }
    forall x, y | x in rs && y in rs && x != y ensures LayerOrdersThem(x, y) {
      var i :| 0 <= i < |rs| && rs[i] == x;
      var j :| 0 <= j < |rs| && rs[j] == y;
      assert i < j ==> LayerOrdersThem(rs[i], rs[j]);
      assert j < i ==> LayerOrdersThem(rs[j], rs[i]);
    }
  }

  predicate LayerOrdersThem(x: Ranked, y: Ranked) {
    (RankedLess(x, y) || RankedLess(y, x)) && (LayerLess(x, y) || LayerLess(y, x))
  }

  lemma LessOrders(x: Ranked, y: Ranked)
    requires Less(x.named.scenario, y.named.scenario)
    ensures LayerOrdersThem(x, y) && x != y
  {
    StringIrreflexive(ChainKey(x.named.scenario.chain));
    StringIrreflexive(x.named.scenario.root.component);
    StringIrreflexive(x.named.scenario.root.state);
  }

  lemma {:induction false} LeadingMeans(l: seq<Named>, n: nat)
    ensures forall i :: 0 <= i < Leading(l, n) ==> |l[i].scenario.chain| == n
    ensures Leading(l, n) < |l| ==> |l[Leading(l, n)].scenario.chain| != n
  {
    if l != [] && |l[0].scenario.chain| == n { LeadingMeans(l[1..], n); }
  }

  lemma {:induction false} RankAllMeans(sit: Situation, touch: string -> nat, l: seq<Named>)
    ensures forall r :: r in RankAll(sit, touch, l) <==> r.named in l && r == RankOf(sit, touch, r.named)
  {
    var rs := RankAll(sit, touch, l);
    forall r: Ranked | r.named in l && r == RankOf(sit, touch, r.named) ensures r in rs {
      var i :| 0 <= i < |l| && l[i] == r.named;
      assert rs[i] == r;
    }
  }

  /** In an ascending list the first chain's length leads, and what follows its run is longer. */
  lemma {:induction false} FirstRun(l: seq<Named>, k: nat)
    requires Ascending(l) && l != [] && k == Leading(l, |l[0].scenario.chain|)
    ensures k > 0
    ensures forall x :: x in l[..k] ==> |x.scenario.chain| == |l[0].scenario.chain|
    ensures forall x :: x in l[k..] ==> |x.scenario.chain| > |l[0].scenario.chain|
  {
    hide Less;
    LeadingMeans(l, |l[0].scenario.chain|);
    forall i | k <= i < |l| ensures |l[i].scenario.chain| > |l[0].scenario.chain| {
      LongerLater(l, 0, k);
      LongerLater(l, k, i);
    }
  }

  lemma LongerLater(l: seq<Named>, i: nat, j: nat)
    requires Ascending(l) && i <= j < |l|
    ensures |l[i].scenario.chain| <= |l[j].scenario.chain|
  {}

  /** Length is the first key, so ranking the whole list ranks its first layer and then the rest. */
  lemma {:induction false} OrderedSplits(sit: Situation, touch: string -> nat, l: seq<Named>, k: nat)
    requires Ascending(l) && l != [] && k == Leading(l, |l[0].scenario.chain|)
    ensures k > 0 && Ordered(sit, touch, l) == LayerOrdered(sit, touch, l[..k]) + Ordered(sit, touch, l[k..])
  {
    hide Ordered, LayerOrdered, RankOf, LayerLess, Less, Ascending, WeakOrder, StrictlySorted, Leading;
    var first, rest := l[..k], l[k..];
    var a, b, c := Ordered(sit, touch, l), LayerOrdered(sit, touch, first), Ordered(sit, touch, rest);
    AscendingPart(l, 0, k);
    AscendingPart(l, k, |l|);
    assert first == l[0..k] && rest == l[k..|l|];
    FirstRun(l, k);
    InRankOrder(sit, touch, l);
    InRankOrder(sit, touch, first);
    InRankOrder(sit, touch, rest);
    LayerRanked(b, |l[0].scenario.chain|);
    forall x, y | x in b && y in c ensures RankedLess(x, y) {
      assert x.named in first && y.named in rest;
    }
    ConcatSorted(RankedLess, b, c);
    assert l == first + rest;
    assert SameElements(a, b + c);
    RankedLessWeak();
    SortedUnique(RankedLess, a, b + c);
  }

  /** Both rankings hold exactly the scenarios of l with their keys, in order. */
  lemma {:induction false} InRankOrder(sit: Situation, touch: string -> nat, l: seq<Named>)
    requires Ascending(l)
    ensures StrictlySorted(RankedLess, Ordered(sit, touch, l)) && StrictlySorted(LayerLess, LayerOrdered(sit, touch, l))
    ensures forall r :: r in Ordered(sit, touch, l) <==> r.named in l && r == RankOf(sit, touch, r.named)
    ensures forall r :: r in LayerOrdered(sit, touch, l) <==> r.named in l && r == RankOf(sit, touch, r.named)
  {
    hide Ordered, LayerOrdered, RankAll, RankOf, RankedLess, LayerLess, Ascending, StrictlySorted;
    RankAllSorts(sit, touch, l);
    RankAllMeans(sit, touch, l);
  }

  lemma LayerRanked(b: seq<Ranked>, n: nat)
    requires StrictlySorted(LayerLess, b) && forall x :: x in b ==> |x.named.scenario.chain| == n
    ensures StrictlySorted(RankedLess, b)
  {
    forall i, j | 0 <= i < j < |b| ensures RankedLess(b[i], b[j]) {
      assert b[i] in b && b[j] in b;
    }
  }

  function OwnId(r: Ranked, c: string): seq<Id> {
    if TouchesComponent(r.named.scenario, c) then [r.named.id] else []
  }

  lemma TouchingIdsFirst(rs: seq<Ranked>, c: string)
    requires rs != []
    ensures TouchingIds(rs, c) == OwnId(rs[0], c) + TouchingIds(rs[1..], c)
  {
    hide TouchesComponent;
  }

  lemma FirstOfConcat<T>(a: seq<T>, b: seq<T>)
    requires a != []
    ensures (a + b)[0] == a[0] && (a + b)[1..] == a[1..] + b
  {}

  lemma Regroup<T>(x: seq<T>, y: seq<T>, z: seq<T>)
    ensures x + (y + z) == x + y + z
  {}

  lemma {:induction false} TouchingIdsAppend(a: seq<Ranked>, b: seq<Ranked>, c: string)
    ensures TouchingIds(a + b, c) == TouchingIds(a, c) + TouchingIds(b, c)
  {
    hide TouchesComponent, OwnId;
    if a == [] {
      assert a + b == b;
    } else {
      hide TouchingIds;
      TouchingIdsAppend(a[1..], b, c);
      FirstOfConcat(a, b);
      TouchingIdsFirst(a, c);
      TouchingIdsFirst(a + b, c);
      Regroup(OwnId(a[0], c), TouchingIds(a[1..], c), TouchingIds(b, c));
    }
  }

  // ---------------------------------------------------------------- deciding over the graph

  /** A decision over the graph lists no more IDs than this. */
  const ELIMINATES_NAMED: nat := 10

  function FirstNamed(ids: seq<Id>): seq<Id> {
    if |ids| <= ELIMINATES_NAMED then ids else ids[..ELIMINATES_NAMED]
  }

  /** The first ten, or all there are. */
  lemma FirstNamedIs(ids: seq<Id>)
    ensures FirstNamed(ids) <= ids && |FirstNamed(ids)| == if |ids| < 10 then |ids| else 10
  {}

  /** The best of the first layer; nothing after it is looked at. */
  function Best(sit: Situation, touch: string -> nat): (Option<Named>, seq<Named>) -> (Option<Named>, bool) {
    (acc: Option<Named>, layer: seq<Named>) =>
      (if layer == [] then acc else Some(LayerOrdered(sit, touch, layer)[0].named), false)
  }

  function Gather(acc: seq<Id>, rs: seq<Ranked>, c: string): (seq<Id>, bool)
    decreases |rs|
  {
    if rs == [] then (acc, true)
    else if TouchesComponent(rs[0].named.scenario, c) then
      var acc' := acc + [rs[0].named.id];
      if |acc'| == ELIMINATES_NAMED then (acc', false) else Gather(acc', rs[1..], c)
    else Gather(acc, rs[1..], c)
  }

  /** The IDs of the scenarios through c, layer by layer in rank order, until enough are named. */
  function Named10(sit: Situation, touch: string -> nat, c: string): (seq<Id>, seq<Named>) -> (seq<Id>, bool) {
    (acc: seq<Id>, layer: seq<Named>) => Gather(acc, LayerOrdered(sit, touch, layer), c)
  }

  lemma {:induction false} GatherMeans(acc: seq<Id>, rs: seq<Ranked>, c: string)
    requires |acc| < ELIMINATES_NAMED
    ensures var all := acc + TouchingIds(rs, c);
            Gather(acc, rs, c) == (FirstNamed(all), |all| < ELIMINATES_NAMED)
    decreases |rs|
  {
    hide TouchesComponent;
    if rs == [] {
      assert acc + TouchingIds(rs, c) == acc;
    } else if TouchesComponent(rs[0].named.scenario, c) {
      var acc', rest := acc + [rs[0].named.id], TouchingIds(rs[1..], c);
      assert acc + TouchingIds(rs, c) == acc' + rest;
      if |acc'| < ELIMINATES_NAMED {
        GatherMeans(acc', rs[1..], c);
      } else {
        assert FirstNamed(acc' + rest) == acc';
      }
    } else {
      GatherMeans(acc, rs[1..], c);
      assert TouchingIds(rs, c) == TouchingIds(rs[1..], c);
    }
  }

  lemma {:induction false} FoldBest(sit: Situation, touch: string -> nat, l: seq<Named>)
    requires Ascending(l) && l != []
    ensures FoldLayers(Best(sit, touch), None, l) == Some(Ordered(sit, touch, l)[0].named)
  {
    OrderedSplits(sit, touch, l, Leading(l, |l[0].scenario.chain|));
  }

  lemma {:induction false} FoldNamed(sit: Situation, touch: string -> nat, c: string, acc: seq<Id>, l: seq<Named>)
    requires Ascending(l) && |acc| < ELIMINATES_NAMED
    ensures FoldLayers(Named10(sit, touch, c), acc, l) == FirstNamed(acc + TouchingIds(Ordered(sit, touch, l), c))
    decreases |l|
  {
    hide Ordered, LayerOrdered, Gather;
    if l == [] {
      assert acc + TouchingIds(Ordered(sit, touch, l), c) == acc;
    } else {
      var k := Leading(l, |l[0].scenario.chain|);
      OrderedSplits(sit, touch, l, k);
      var layer := LayerOrdered(sit, touch, l[..k]);
      TouchingIdsAppend(layer, Ordered(sit, touch, l[k..]), c);
      GatherMeans(acc, layer, c);
      var all := acc + TouchingIds(layer, c);
      assert acc + TouchingIds(Ordered(sit, touch, l), c) == all + TouchingIds(Ordered(sit, touch, l[k..]), c);
      if |all| < ELIMINATES_NAMED {
        AscendingPart(l, k, |l|);
        FoldNamed(sit, touch, c, all, l[k..]);
      }
    }
  }

  /** Equal counts give equal ranks. */
  lemma {:induction false} SameTouchSameOrder(sit: Situation, touch: string -> nat, touch': string -> nat, l: seq<Named>)
    requires forall c :: touch(c) == touch'(c)
    ensures Ordered(sit, touch, l) == Ordered(sit, touch', l)
  {
    assert RankAll(sit, touch, l) == RankAll(sit, touch', l);
  }

  lemma {:induction false} CountByContent(digest: string -> string, scs: seq<Scenario>, c: string)
    ensures CountIf(NamedTouches(c), ByContent(digest, scs)) == CountIf(ScenarioTouchesC(c), scs)
  {
    if scs != [] {
      CountByContent(digest, scs[..|scs| - 1], c);
      assert ByContent(digest, scs)[..|scs| - 1] == ByContent(digest, scs[..|scs| - 1]);
    }
  }

  lemma {:induction false} TouchingIdsCount(rs: seq<Ranked>, c: string)
    ensures |TouchingIds(rs, c)| == CountIf((r: Ranked) => TouchesComponent(r.named.scenario, c), rs)
  {
    if rs != [] {
      TouchingIdsCount(rs[1..], c);
      var p := (r: Ranked) => TouchesComponent(r.named.scenario, c);
      CountIfAppend(p, [rs[0]], rs[1..]);
      assert [rs[0]] + rs[1..] == rs;
      assert [rs[0]][..0] == [];
    }
  }

  lemma {:induction false} RankAllCount(sit: Situation, touch: string -> nat, l: seq<Named>, c: string)
    ensures CountIf((r: Ranked) => TouchesComponent(r.named.scenario, c), RankAll(sit, touch, l)) == CountIf(NamedTouches(c), l)
  {
    if l != [] {
      RankAllCount(sit, touch, l[..|l| - 1], c);
      assert RankAll(sit, touch, l)[..|l| - 1] == RankAll(sit, touch, l[..|l| - 1]);
    }
  }

  /** As many IDs are collected as there are live scenarios through c. */
  lemma {:induction false} IdsCounted(sit: Situation, touch: string -> nat, l: seq<Named>, c: string)
    requires Ascending(l)
    ensures |TouchingIds(Ordered(sit, touch, l), c)| == CountIf(NamedTouches(c), l)
  {
    var rs := Ordered(sit, touch, l);
    var p := (r: Ranked) => TouchesComponent(r.named.scenario, c);
    TouchingIdsCount(rs, c);
    RankAllCount(sit, touch, l, c);
    RankAllSorts(sit, touch, l);
    RankedLessWeak();
    LessWeak();
    StrictNoDup(RankedLess, rs);
    forall i, j | 0 <= i < j < |l| ensures RankAll(sit, touch, l)[i] != RankAll(sit, touch, l)[j] {
      assert Less(l[i].scenario, l[j].scenario);
    }
    SameElementsSameCount(p, rs, RankAll(sit, touch, l));
  }

  /** d says what full says, naming no more than the first ten of the scenarios it names. */
  predicate Agrees(d: Decision, full: Decision) {
    match full
    case Ask(p, ids, n) => d == Ask(p, FirstNamed(ids), n)
    case _ => d == full
  }

  /** How many steps the live chains have at a component. */
  ghost function StepCount(l: seq<Scenario>): string -> nat {
    (c: string) => Sum(StepsAt(c), l)
  }

  /** Priced by how many of the scenarios touch a component, it is the listing's decision. */
  lemma {:induction false} PricedByTouch(sit: Situation, touch: string -> nat, l: seq<Named>)
    requires Ascending(l) && forall c :: touch(c) == TouchCount(l)(c)
    ensures PricedDecision(sit, touch, l) == DecisionOver(sit, l)
  {
    hide Ordered, TouchingIds, CountIf, TouchCount, Ascending;
    SameTouchSameOrder(sit, touch, TouchCount(l), l);
    if |l| > 1 {
      var p := PickSymptomInward(sit.model, sit.log, Ordered(sit, touch, l)[0].named.scenario.chain);
      if p.Some? { PricedIds(sit, l, p.value.component); }
    }
  }

  lemma PricedIds(sit: Situation, l: seq<Named>, c: string)
    requires Ascending(l)
    ensures |TouchingIds(Ordered(sit, TouchCount(l), l), c)| == TouchCount(l)(c)
  {
    hide Ordered, TouchingIds;
    IdsCounted(sit, TouchCount(l), l, c);
  }

  /** With one scenario live it is the best of the first layer. */
  lemma OnlyOne(sit: Situation, touch: string -> nat, l: seq<Named>)
    requires |l| == 1
    ensures Ordered(sit, touch, l)[0].named == l[0]
  {
    hide Sort;
    SortElements(RankedLess, RankAll(sit, touch, l));
    assert Ordered(sit, touch, l)[0] in Ordered(sit, touch, l);
  }

  /** The decision once the live chains have been counted: the best of the first layer, then the chains through the
      component it asks about. */
  method DecideCounted(m: Model, store: Store, suspects: seq<Suspect>, g: Graph, digest: string -> string, counts: Counting.Counts)
    returns (d: Decision)
    requires WellFormed(g) && Tame(g, GraphLiveness(m, store.log))
    requires counts.live == |ChainList(g, GraphLiveness(m, store.log))|
    requires forall c :: Counting.Touched(counts.touch, c) == StepCount(ChainList(g, GraphLiveness(m, store.log)))(c)
    ensures var l := ChainList(g, GraphLiveness(m, store.log));
            Agrees(d, PricedDecision(Situation(m, store.log, suspects), StepCount(l), ByContent(digest, l)))
  {
    hide ChainList, FoldLayers, TouchingIds, Ordered, LayerOrdered, WellFormed, Tame, GraphLiveness, PickSymptomInward, StepCount;
    var live := GraphLiveness(m, store.log);
    ghost var scs := ChainList(g, live);
    ghost var l := ByContent(digest, scs);
    ChainsAscend(g, live, digest);
    var sit := Situation(m, store.log, suspects);
    var touch := (c: string) => Counting.Touched(counts.touch, c);
    SameTouchSameOrder(sit, touch, StepCount(scs), l);
    if counts.live == 0 { return Stuck(NoneMatches); }
    FoldBest(sit, touch, l);
    var chosen := LiveByLength(g, live, digest, Best(sit, touch), None);
    if counts.live == 1 {
      OnlyOne(sit, touch, l);
      return Done(chosen.value);
    }
    var probe := PickSymptomInward(m, store.log, chosen.value.scenario.chain);
    if probe.None? { return Stuck(AllVerified); }
    FoldNamed(sit, touch, probe.value.component, [], l);
    var ids := LiveByLength(g, live, digest, Named10(sit, touch, probe.value.component), []);
    ghost var all := TouchingIds(Ordered(sit, touch, l), probe.value.component);
    assert [] + all == all && ids == FirstNamed(all);
    return Ask(probe.value, ids, Counting.Touched(counts.touch, probe.value.component));
  }

  lemma ChainsAscend(g: Graph, live: Liveness, digest: string -> string)
    requires WellFormed(g) && Tame(g, live)
    ensures Ascending(ByContent(digest, ChainList(g, live)))
  {
    hide WellFormed, Tame, ChainList, Less;
    ChainListMeans(g, live);
  }

  /** Where no live chain meets a component twice the price is the listing's. */
  lemma {:induction false} PricedBySteps(sit: Situation, g: Graph, digest: string -> string)
    requires WellFormed(g) && Tame(g, GraphLiveness(sit.model, sit.log))
    requires forall s :: s in ChainList(g, GraphLiveness(sit.model, sit.log)) ==> NoRepeat(s)
    ensures var l := ChainList(g, GraphLiveness(sit.model, sit.log));
            PricedDecision(sit, StepCount(l), ByContent(digest, l)) == DecisionOver(sit, ByContent(digest, l))
  {
    hide ChainList, WellFormed, CountIf, Sum, Tame, NoRepeat, DecisionOver, PricedDecision, GraphLiveness;
    var scs := ChainList(g, GraphLiveness(sit.model, sit.log));
    ChainsAscend(g, GraphLiveness(sit.model, sit.log), digest);
    forall c ensures StepCount(scs)(c) == TouchCount(ByContent(digest, scs))(c) {
      CountByContent(digest, scs, c);
      StepsAreChains(scs, c);
    }
    PricedByTouch(sit, StepCount(scs), ByContent(digest, scs));
  }

  /** occamOnGraph, on any graph: nothing when counting meets a cycle. Otherwise it is the decision over the live chains
      with the steps at a component as its price; and when no live chain meets a component twice, the listing's own. */
  method OccamOnGraph(m: Model, store: Store, suspects: seq<Suspect>, g: Graph, digest: string -> string)
    returns (d: Option<Decision>)
    requires WellFormed(g)
    ensures d.None? <==> !Tame(g, GraphLiveness(m, store.log))
    ensures d.Some? ==>
              var l := ChainList(g, GraphLiveness(m, store.log));
              && Agrees(d.value, PricedDecision(Situation(m, store.log, suspects), StepCount(l), ByContent(digest, l)))
              && ((forall s :: s in l ==> NoRepeat(s)) ==>
                    Agrees(d.value, DecisionOver(Situation(m, store.log, suspects), ByContent(digest, l))))
  {
    hide ChainList, WellFormed, Acyclic, CountIf, Sum, Tame, NoRepeat, DecisionOver, PricedDecision, GraphLiveness, LiveListing, FirstNamed;
    var live := GraphLiveness(m, store.log);
    var r := Counting.Count(g, live);
    if r.ErrCycle? { return None; }
    var decision := DecideCounted(m, store, suspects, g, digest, r.counts);
    if forall s :: s in ChainList(g, live) ==> NoRepeat(s) { PricedBySteps(Situation(m, store.log, suspects), g, digest); }
    return Some(decision);
  }

  // ---------------------------------------------------------------- what a decision says

  /** What the best ranked scenario most wants asked nobody has answered. */
  lemma {:induction false} BestAsks(sit: Situation, touch: string -> nat, live: seq<Named>)
    requires live != []
    ensures var p := PickSymptomInward(sit.model, sit.log, Ordered(sit, touch, live)[0].named.scenario.chain);
            p.Some? ==> Asks(sit.model, sit.log, p.value)
  {
    hide Ordered, Asks;
    var chain := Ordered(sit, touch, live)[0].named.scenario.chain;
    PickMeans(sit.model, sit.log, chain);
    var p := PickSymptomInward(sit.model, sit.log, chain);
    if p.Some? {
      var i: nat :| AsksInward(sit.model, sit.log, chain, p.value, i);
    }
  }

  /** Whatever list it is taken over: nothing live, one live, or a question nobody has answered about a live one. */
  lemma {:induction false} DecisionIsOpen(sit: Situation, live: seq<Named>)
    ensures DecisionOver(sit, live) == Stuck(NoneMatches) <==> live == []
    ensures forall n :: DecisionOver(sit, live) == Done(n) <==> live == [n]
    ensures DecisionOver(sit, live).Ask? ==> Asks(sit.model, sit.log, DecisionOver(sit, live).probe)
  {
    hide Ordered, TouchingIds, Asks;
    if |live| > 1 { BestAsks(sit, TouchCount(live), live); }
  }

  /** ... and whatever the probes are priced by. */
  lemma {:induction false} PricedIsOpen(sit: Situation, touch: string -> nat, live: seq<Named>)
    ensures PricedDecision(sit, touch, live) == Stuck(NoneMatches) <==> live == []
    ensures forall n :: PricedDecision(sit, touch, live) == Done(n) <==> live == [n]
    ensures PricedDecision(sit, touch, live).Ask? ==> Asks(sit.model, sit.log, PricedDecision(sit, touch, live).probe)
  {
    hide Ordered, TouchingIds, Asks;
    if |live| > 1 { BestAsks(sit, touch, live); }
  }

  /** Some suspicion names a component of s -- in one of the states s has it in, when it names a state. */
  ghost predicate Hinted(hints: seq<Suspect>, s: Scenario) {
    exists h, i :: 0 <= h < |hints| && 0 <= i < |s.chain| &&
                   s.chain[i].component == hints[h].component && (hints[h].state == "" || s.chain[i].state == hints[h].state)
  }

  /** How many others touch counts at the component of the probe that x wants; none without a probe. */
  ghost function Price(sit: Situation, touch: string -> nat, x: Named): int {
    var p := PickSymptomInward(sit.model, sit.log, x.scenario.chain);
    if p.Some? then touch(p.value.component) - 1 else 0
  }

  /** x is the better one to pursue: the shorter; of equally long ones the one that is hinted at; of equally hinted the one
      with the more telling probe; and of equally telling ones the earlier in scenario order. */
  ghost predicate Better(sit: Situation, touch: string -> nat, x: Named, y: Named) {
    && |x.scenario.chain| <= |y.scenario.chain|
    && (|x.scenario.chain| == |y.scenario.chain| ==>
          && (Hinted(sit.suspects, y.scenario) ==> Hinted(sit.suspects, x.scenario))
          && (Hinted(sit.suspects, x.scenario) == Hinted(sit.suspects, y.scenario) ==>
                && Price(sit, touch, x) >= Price(sit, touch, y)
                && (Price(sit, touch, x) == Price(sit, touch, y) ==> Less(x.scenario, y.scenario))))
  }

  /** n is better than every other one. */
  ghost predicate Foremost(sit: Situation, touch: string -> nat, live: seq<Named>, n: Named) {
    n in live && forall x :: x in live && x != n ==> Better(sit, touch, n, x)
  }

  lemma HintedIs(hints: seq<Suspect>, s: Scenario)
    ensures TouchesAnySuspect(s, hints) <==> Hinted(hints, s)
  {
    if h, i :| 0 <= h < |hints| && 0 <= i < |s.chain| &&
               s.chain[i].component == hints[h].component && (hints[h].state == "" || s.chain[i].state == hints[h].state) {
      assert Suspected(s, hints[h]);
    }
    if h :| 0 <= h < |hints| && Suspected(s, hints[h]) {
      var i :| 0 <= i < |s.chain| && s.chain[i].component == hints[h].component &&
               (hints[h].state == "" || s.chain[i].state == hints[h].state);
    }
  }

  /** Ranking puts the better one first. */
  lemma {:induction false} RanksBetter(sit: Situation, touch: string -> nat, x: Named, y: Named)
    ensures RankedLess(RankOf(sit, touch, x), RankOf(sit, touch, y)) <==> Better(sit, touch, x, y)
  {
    hide TouchesAnySuspect, Hinted, Less, PickSymptomInward;
    HintedIs(sit.suspects, x.scenario);
    HintedIs(sit.suspects, y.scenario);
  }

  /** p is what n most wants asked, and nobody has asked it; n itself lies on p's component. */
  ghost predicate AsksFor(sit: Situation, n: Named, p: Probe) {
    && PickSymptomInward(sit.model, sit.log, n.scenario.chain) == Some(p)
    && Asks(sit.model, sit.log, p) && TouchesComponent(n.scenario, p.component)
  }

  ghost predicate LiesOn(live: seq<Named>, c: string, id: Id) {
    exists x :: x in live && TouchesComponent(x.scenario, c) && x.id == id
  }

  lemma {:induction false} TouchingIdsMean(rs: seq<Ranked>, c: string, id: Id)
    ensures id in TouchingIds(rs, c) <==> exists r :: r in rs && TouchesComponent(r.named.scenario, c) && r.named.id == id
  {
    if rs != [] {
      TouchingIdsMean(rs[1..], c, id);
      assert rs == [rs[0]] + rs[1..];
      assert rs[0] in rs;
    }
  }

  /** The scenarios of live, each once, every one better than those after it. */
  ghost predicate InRank(sit: Situation, touch: string -> nat, live: seq<Named>, ns: seq<Named>) {
    && (forall n :: n in ns <==> n in live)
    && forall i, j :: 0 <= i < j < |ns| ==> Better(sit, touch, ns[i], ns[j])
  }

  function NamesOf(rs: seq<Ranked>): seq<Named> {
    seq(|rs|, i requires 0 <= i < |rs| => rs[i].named)
  }

  lemma {:induction false} OrderedInRank(sit: Situation, touch: string -> nat, live: seq<Named>)
    requires Ascending(live)
    ensures InRank(sit, touch, live, NamesOf(Ordered(sit, touch, live)))
  {
    hide Ordered, LayerOrdered, RankOf, RankedLess, LayerLess, Ascending, Better;
    var rs := Ordered(sit, touch, live);
    var ns := NamesOf(rs);
    InRankOrder(sit, touch, live);
    forall n ensures n in ns <==> n in live {
      RankKeepsName(sit, touch, n);
      if n in live {
        assert RankOf(sit, touch, n) in rs;
        var i :| 0 <= i < |rs| && rs[i] == RankOf(sit, touch, n);
        assert ns[i] == n;
      }
      if n in ns {
        var i :| 0 <= i < |ns| && ns[i] == n;
        assert rs[i] in rs;
      }
    }
    forall i, j | 0 <= i < j < |ns| ensures Better(sit, touch, ns[i], ns[j]) {
      assert rs[i] in rs && rs[j] in rs;
      assert RankedLess(rs[i], rs[j]);
      RanksBetter(sit, touch, ns[i], ns[j]);
    }
  }

  lemma {:induction false} OrderedChooses(sit: Situation, touch: string -> nat, live: seq<Named>)
    requires Ascending(live) && live != []
    ensures Foremost(sit, touch, live, Ordered(sit, touch, live)[0].named)
  {
    hide Ordered, Ascending, Better;
    OrderedInRank(sit, touch, live);
    var ns := NamesOf(Ordered(sit, touch, live));
    assert ns[0] in ns;
    forall x | x in live && x != ns[0] ensures Better(sit, touch, ns[0], x) {
      var i :| 0 <= i < |ns| && ns[i] == x;
    }
  }

  /** Of scenarios in rank order, the IDs of those on component c, in that order. */
  ghost predicate IdsOn(ns: seq<Named>, c: string, ids: seq<Id>) {
    if ns == [] then ids == []
    else if exists i :: 0 <= i < |ns[0].scenario.chain| && ns[0].scenario.chain[i].component == c
    then ids != [] && ids[0] == ns[0].id && IdsOn(ns[1..], c, ids[1..])
    else IdsOn(ns[1..], c, ids)
  }

  lemma {:induction false} TouchingAreOn(rs: seq<Ranked>, c: string)
    ensures IdsOn(NamesOf(rs), c, TouchingIds(rs, c))
  {
    if rs != [] {
      TouchingAreOn(rs[1..], c);
      assert NamesOf(rs)[1..] == NamesOf(rs[1..]);
      var ids := TouchingIds(rs, c);
      if TouchesComponent(rs[0].named.scenario, c) {
        assert ids == [rs[0].named.id] + TouchingIds(rs[1..], c);
        assert ids[1..] == TouchingIds(rs[1..], c);
      } else {
        assert ids == TouchingIds(rs[1..], c);
      }
    }
  }

  /** Stuck with nothing to match exactly when nothing is live, done exactly when one scenario is; otherwise the
      best one is asked about, for a fact nobody has read, naming every live scenario on that component, the better first. */
  lemma {:induction false} DecisionMeans(sit: Situation, live: seq<Named>)
    requires Ascending(live)
    ensures match DecisionOver(sit, live)
            case Stuck(NoneMatches) => live == []
            case Done(n) => live == [n]
            case Stuck(AllVerified) =>
              |live| > 1 && exists n :: Foremost(sit, TouchCount(live), live, n) && PickSymptomInward(sit.model, sit.log, n.scenario.chain).None?
            case Ask(p, ids, count) =>
              && |live| > 1
              && (exists n :: Foremost(sit, TouchCount(live), live, n) && AsksFor(sit, n, p))
              && (exists ns :: InRank(sit, TouchCount(live), live, ns) && IdsOn(ns, p.component, ids))
              && count == |ids| == CountIf(NamedTouches(p.component), live)
              && (forall id :: id in ids <==> LiesOn(live, p.component, id))
  {
    if |live| > 1 {
      hide Ordered, RankOf, TouchingIds, RankedLess, CountIf, Asks, Better, IdsOn;
      var touch := TouchCount(live);
      var rs := Ordered(sit, touch, live);
      var n := rs[0].named;
      OrderedChooses(sit, touch, live);
      OrderedInRank(sit, touch, live);
      PickMeans(sit.model, sit.log, n.scenario.chain);
      var p := PickSymptomInward(sit.model, sit.log, n.scenario.chain);
      if p.Some? {
        var c := p.value.component;
        var i: nat :| AsksInward(sit.model, sit.log, n.scenario.chain, p.value, i);
        assert AsksFor(sit, n, p.value);
        TouchingAreOn(rs, c);
        IdsCounted(sit, touch, live, c);
        InRankOrder(sit, touch, live);
        forall id ensures id in TouchingIds(rs, c) <==> LiesOn(live, c, id) {
          TouchingIdsMean(rs, c, id);
          if LiesOn(live, c, id) {
            var x :| x in live && TouchesComponent(x.scenario, c) && x.id == id;
            RankKeepsName(sit, touch, x);
            assert RankOf(sit, touch, x) in rs;
          }
        }
      }
    }
  }

  /** The same of a decision whose probes are priced by touch, whatever that counts: it is the steps at a component that
      price a decision over a graph. */
  lemma {:induction false} PricedMeans(sit: Situation, touch: string -> nat, live: seq<Named>)
    requires Ascending(live)
    ensures match PricedDecision(sit, touch, live)
            case Stuck(NoneMatches) => live == []
            case Done(n) => live == [n]
            case Stuck(AllVerified) =>
              |live| > 1 && exists n :: Foremost(sit, touch, live, n) && PickSymptomInward(sit.model, sit.log, n.scenario.chain).None?
            case Ask(p, ids, count) =>
              && |live| > 1 && count == touch(p.component)
              && (exists n :: Foremost(sit, touch, live, n) && AsksFor(sit, n, p))
              && (exists ns :: InRank(sit, touch, live, ns) && IdsOn(ns, p.component, ids))
  {
    if |live| > 1 {
      hide Ordered, RankOf, TouchingIds, RankedLess, Asks, Better, IdsOn;
      var rs := Ordered(sit, touch, live);
      var n := rs[0].named;
      OrderedChooses(sit, touch, live);
      OrderedInRank(sit, touch, live);
      PickMeans(sit.model, sit.log, n.scenario.chain);
      var p := PickSymptomInward(sit.model, sit.log, n.scenario.chain);
      if p.Some? {
        var i: nat :| AsksInward(sit.model, sit.log, n.scenario.chain, p.value, i);
        assert AsksFor(sit, n, p.value);
        TouchingAreOn(rs, p.value.component);
      }
    }
  }

  // ---------------------------------------------------------------- the two forms decide alike

  lemma {:induction false} FilterByContent(digest: string -> string, live: Liveness, scs: seq<Scenario>)
    ensures Filter(NamedLive(live), ByContent(digest, scs)) == ByContent(digest, Filter(IsLiveScenario(live), scs))
  {
    if scs != [] {
      var init := scs[..|scs| - 1];
      FilterByContent(digest, live, init);
      assert ByContent(digest, scs)[..|scs| - 1] == ByContent(digest, init);
    }
  }

  /** Where no two chains share a digest, the live part of the listing carries the names the graph gives. */
  lemma {:induction false} LiveNamesAgree(g: Graph, live: Liveness, digest: string -> string)
    requires NoCollision(digest, Listing(g))
    ensures Filter(NamedLive(live), NamedAll(digest, Listing(g))) == ByContent(digest, LiveListing(g, live))
  {
    hide Listing, ScenarioLive;
    IdsByContent(digest, Listing(g));
    assert NamedAll(digest, Listing(g)) == ByContent(digest, Listing(g));
    FilterByContent(digest, live, Listing(g));
  }

  /** No live chain meets a component twice, and the listing leaves no root alone that something follows from. */
  ghost predicate Straight(g: Graph, live: Liveness) {
    (forall s :: s in ChainList(g, live) ==> NoRepeat(s)) && Plain(g, live)
  }

  /** The decision settles the matter: nothing fits, or one scenario does. */
  predicate Concludes(d: Decision) {
    d == Stuck(NoneMatches) || d.Done?
  }

  /** When either of two decisions concludes, however the first is priced, they agree exactly when they are taken over
      the same scenarios. */
  lemma {:induction false} ConcludeAlike(sit: Situation, touch: string -> nat, l: seq<Named>, m: seq<Named>, d: Decision)
    requires Agrees(d, PricedDecision(sit, touch, l)) && (Concludes(d) || Concludes(DecisionOver(sit, m)))
    ensures Agrees(d, DecisionOver(sit, m)) <==> l == m
  {
    hide PricedDecision, DecisionOver, FirstNamed, Asks;
    PricedIsOpen(sit, touch, l);
    DecisionIsOpen(sit, m);
  }

  lemma SameScenarios(digest: string -> string, a: seq<Scenario>, b: seq<Scenario>)
    ensures ByContent(digest, a) == ByContent(digest, b) <==> a == b
  {
    if ByContent(digest, a) == ByContent(digest, b) {
      forall i | 0 <= i < |a| ensures a[i] == b[i] { assert ByContent(digest, a)[i].scenario == ByContent(digest, b)[i].scenario; }
    }
  }

  /** What is decided over the scenarios when there are any, and over the graph when there are none: over its live
      chains, priced by their steps, when they can be counted, and over the live part of its listing when not. */
  ghost function Taken(sit: Situation, scs: seq<Named>, graph: Option<Graph>, digest: string -> string): Decision {
    var live := GraphLiveness(sit.model, sit.log);
    if graph.None? || scs != [] then DecisionOver(sit, Filter(NamedLive(live), scs))
    else if Tame(graph.value, live) then
      PricedDecision(sit, StepCount(ChainList(graph.value, live)), ByContent(digest, ChainList(graph.value, live)))
    else ListedDecision(sit, graph.value, digest)
  }

  /** What is decided over the live part of the listing. */
  ghost function ListedDecision(sit: Situation, g: Graph, digest: string -> string): Decision {
    DecisionOver(sit, Filter(NamedLive(GraphLiveness(sit.model, sit.log)), NamedAll(digest, Listing(g))))
  }

  /** Over a graph that can be counted: when either decision concludes, the graph's is the listing's exactly when no live
      chain repeats a component before its last step and no listed root strays. */
  lemma {:induction false} ConcludesAsListed(sit: Situation, g: Graph, digest: string -> string, d: Decision)
    requires WellFormed(g) && Tame(g, GraphLiveness(sit.model, sit.log)) && NoCollision(digest, Listing(g))
    requires Agrees(d, Taken(sit, [], Some(g), digest)) && (Concludes(d) || Concludes(ListedDecision(sit, g, digest)))
    ensures Agrees(d, ListedDecision(sit, g, digest)) <==> Plain(g, GraphLiveness(sit.model, sit.log))
  {
    hide WellFormed, Tame, NoCollision, Listing, Plain, ChainList, LiveListing, PricedDecision, DecisionOver, GraphLiveness,
      Filter, FirstNamed, StepCount;
    var live := GraphLiveness(sit.model, sit.log);
    var a, b := ChainList(g, live), LiveListing(g, live);
    LiveNamesAgree(g, live, digest);
    ConcludeAlike(sit, StepCount(a), ByContent(digest, a), ByContent(digest, b), d);
    SameScenarios(digest, a, b);
    SameExactlyWhenPlain(g, live);
  }

  /** Over a graph none of whose live chains comes back to a component every decision is the listing's. */
  lemma {:induction false} DecidesAsListed(sit: Situation, g: Graph, digest: string -> string, d: Decision)
    requires WellFormed(g) && Tame(g, GraphLiveness(sit.model, sit.log)) && NoCollision(digest, Listing(g))
    requires Straight(g, GraphLiveness(sit.model, sit.log)) && Agrees(d, Taken(sit, [], Some(g), digest))
    ensures Agrees(d, ListedDecision(sit, g, digest))
  {
    hide WellFormed, Tame, NoCollision, Listing, Plain, ChainList, LiveListing, PricedDecision, DecisionOver, GraphLiveness,
      Filter, FirstNamed, NoRepeat, CountIf, Sum;
    var live := GraphLiveness(sit.model, sit.log);
    var scs := ChainList(g, live);
    LiveNamesAgree(g, live, digest);
    SameExactlyWhenPlain(g, live);
    PricedBySteps(sit, g, digest);
  }

  /** The next probe, from the scenarios when there are any and from the graph when there are none, as Taken says; over a
      graph that can be counted with at most ten scenarios named. What it asks for nobody has answered. */
  method SuggestProbe(m: Model, store: Store, suspects: seq<Suspect>, scs: seq<Named>, graph: Option<Graph>,
                      digest: string -> string) returns (d: Decision)
    requires graph.Some? && scs == [] ==> WellFormed(graph.value)
    ensures var full := Taken(Situation(m, store.log, suspects), scs, graph, digest);
            if scs == [] && graph.Some? && Tame(graph.value, GraphLiveness(m, store.log)) then Agrees(d, full) else d == full
    ensures d.Ask? ==> Asks(m, store.log, d.probe)
    ensures scs == [] && graph.Some? && Tame(graph.value, GraphLiveness(m, store.log)) && NoCollision(digest, Listing(graph.value)) ==>
              var g, live, full := graph.value, GraphLiveness(m, store.log),
                                   ListedDecision(Situation(m, store.log, suspects), graph.value, digest);
              && (Concludes(d) || Concludes(full) ==> (Agrees(d, full) <==> Plain(g, live)))
              && (Straight(g, live) ==> Agrees(d, full))
  {
    hide WellFormed, Tame, Listing, NoCollision, DecisionOver, PricedDecision, Filter, GraphLiveness, FirstNamed, ChainList, Plain,
      NoRepeat, LiveListing, Asks;
    ghost var sit, live := Situation(m, store.log, suspects), GraphLiveness(m, store.log);
    if graph.Some? && |scs| == 0 {
      var g := graph.value;
      var byGraph := OccamOnGraph(m, store, suspects, g, digest);
      if byGraph.Some? {
        d := byGraph.value;
        PricedIsOpen(sit, StepCount(ChainList(g, live)), ByContent(digest, ChainList(g, live)));
        if NoCollision(digest, Listing(g)) {
          if Concludes(d) || Concludes(ListedDecision(sit, g, digest)) { ConcludesAsListed(sit, g, digest, d); }
          if Straight(g, live) { DecidesAsListed(sit, g, digest, d); }
        }
        return;
      }
      var all := Expand(g, digest);
      d := SuggestByListing(m, store, suspects, all);
      DecisionIsOpen(sit, Filter(NamedLive(live), NamedAll(digest, Listing(g))));
    } else {
      d := SuggestByListing(m, store, suspects, scs);
      DecisionIsOpen(sit, Filter(NamedLive(live), scs));
    }
  }
}
