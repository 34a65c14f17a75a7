/** Chains grouped by where they start and where they show, each group by its least chain and its size. */
module Representatives {
  import opened Ordering
  import opened FailureGraph
  import opened Chains

  datatype Representative = Representative(scenario: Scenario, count: nat)

  /** The last component; the root's when there are no steps. */
  function Terminal(s: Scenario): string {
    if s.chain == [] then s.root.component else s.chain[|s.chain| - 1].component
  }

  predicate SameClass(a: Scenario, b: Scenario) {
    a.root == b.root && Terminal(a) == Terminal(b)
  }

  function InClassOf(a: Scenario): Scenario -> bool {
    b => SameClass(a, b)
  }

  // ---------------------------------------------------------------- the loop

  /** Where s's class stands in out; |out| when it is new. */
  function ClassIndex(out: seq<Representative>, s: Scenario): (i: nat)
    ensures i <= |out|
    ensures i < |out| ==> SameClass(out[i].scenario, s)
    ensures forall j :: 0 <= j < i ==> !SameClass(out[j].scenario, s)
  {
    if out == [] then 0
    else if SameClass(out[0].scenario, s) then 0
    else 1 + ClassIndex(out[1..], s)
  }

  /** s joins its class, as its representative when it is shorter, or starts one. */
  function Join(out: seq<Representative>, s: Scenario): seq<Representative> {
    var i := ClassIndex(out, s);
    if i == |out| then out + [Representative(s, 1)]
    else out[i := Representative(if |s.chain| < |out[i].scenario.chain| then s else out[i].scenario, out[i].count + 1)]
  }

  function RepresentativesOf(scs: seq<Scenario>): seq<Representative> {
    if scs == [] then [] else Join(RepresentativesOf(scs[..|scs| - 1]), scs[|scs| - 1])
  }

  datatype ClassKey = ClassKey(root: RootRef, terminal: string)

  function KeyOf(s: Scenario): ClassKey {
    ClassKey(s.root, Terminal(s))
  }

  /** The index map holds where each class stands. */
  ghost predicate Indexed(at: map<ClassKey, nat>, out: seq<Representative>) {
    && (forall k :: k in at ==> at[k] < |out| && KeyOf(out[at[k]].scenario) == k)
    && (forall i :: 0 <= i < |out| ==> KeyOf(out[i].scenario) in at && at[KeyOf(out[i].scenario)] == i)
  }

  lemma IndexFinds(at: map<ClassKey, nat>, out: seq<Representative>, s: Scenario)
    requires Indexed(at, out)
    ensures ClassIndex(out, s) == if KeyOf(s) in at then at[KeyOf(s)] else |out|
    ensures Indexed(if KeyOf(s) in at then at else at[KeyOf(s) := |out|], Join(out, s))
    ensures KeyOf(s) in at ==> at[KeyOf(s)] < |out|
  {
    var i := ClassIndex(out, s);
    if i < |out| { assert KeyOf(out[i].scenario) == KeyOf(s); }
  }

  lemma OneMoreScenario(scs: seq<Scenario>, i: nat)
    requires i < |scs|
    ensures RepresentativesOf(scs[..i + 1]) == Join(RepresentativesOf(scs[..i]), scs[i])
  {
    assert scs[..i + 1][..i] == scs[..i];
  }

  method ListRepresentatives(scs: seq<Scenario>) returns (out: seq<Representative>)
    ensures out == RepresentativesOf(scs)
  {
    var at: map<ClassKey, nat> := map[];
    out := [];
    for i := 0 to |scs|
      invariant out == RepresentativesOf(scs[..i]) && Indexed(at, out)
    {
      hide KeyOf, ClassIndex, Indexed;
      OneMoreScenario(scs, i);
      var s := scs[i];
      var k := KeyOf(s);
      IndexFinds(at, out, s);
      if k !in at {
        at, out := at[k := |out|], out + [Representative(s, 1)];
      } else {
        var j := at[k];
        ghost var was := out;
        var shorter := |s.chain| < |out[j].scenario.chain|;
        out := out[j := out[j].(count := out[j].count + 1)];
        if shorter { out := out[j := out[j].(scenario := s)]; }
        assert out == was[j := Representative(if shorter then s else was[j].scenario, was[j].count + 1)];
      }
    }
    assert scs[..|scs|] == scs;
  }

  // ---------------------------------------------------------------- what the representatives are

  /** rep stands for its class in l: the least of its members, with how many there are. */
  ghost predicate IsRepresentative(l: seq<Scenario>, rep: Representative) {
    && rep.scenario in l
    && (forall t :: t in l && SameClass(rep.scenario, t) ==> t == rep.scenario || Less(rep.scenario, t))
    && rep.count == CountIf(InClassOf(rep.scenario), l)
  }

  predicate RepLess(a: Representative, b: Representative) {
    Less(a.scenario, b.scenario)
  }

  lemma RepLessWeak()
    ensures WeakOrder(RepLess)
  {
    LessWeak();
    forall x, y, z | RepLess(x, z) ensures RepLess(x, y) || RepLess(y, z) {
      assert Less(x.scenario, z.scenario);
    }
  }

  lemma ClassCounts(a: Scenario, b: Scenario, l: seq<Scenario>)
    requires SameClass(a, b)
    ensures CountIf(InClassOf(a), l) == CountIf(InClassOf(b), l)
  {
    CountIfSame(InClassOf(a), InClassOf(b), l);
  }

  /** Of a sorted listing, the representatives come out sorted, one for each class. */
  lemma {:induction false} RepresentativesMean(l: seq<Scenario>)
    requires StrictlySorted(Less, l)
    ensures var out := RepresentativesOf(l);
            && StrictlySorted(RepLess, out)
            && (forall i :: 0 <= i < |out| ==> IsRepresentative(l, out[i]))
            && (forall s :: s in l ==> exists i :: 0 <= i < |out| && SameClass(out[i].scenario, s))
  {
    if l != [] {
      var init, s := l[..|l| - 1], l[|l| - 1];
      assert l == init + [s];
      RepresentativesMean(init);
      JoinMeans(init, s, RepresentativesOf(init));
    }
  }

  lemma EarlierLess(init: seq<Scenario>, s: Scenario)
    requires StrictlySorted(Less, init + [s])
    ensures forall t :: t in init ==> Less(t, s)
  {
    forall t | t in init ensures Less(t, s) {
      var i :| 0 <= i < |init| && init[i] == t;
      assert (init + [s])[i] == t && (init + [s])[|init|] == s;
    }
  }

  /** A later chain counts in its class and never becomes its representative. */
  lemma JoinOne(init: seq<Scenario>, s: Scenario, rep: Representative)
    requires IsRepresentative(init, rep) && Less(rep.scenario, s)
    ensures IsRepresentative(init + [s], if SameClass(rep.scenario, s) then rep.(count := rep.count + 1) else rep)
  {
    hide Less, SameClass;
    assert (init + [s])[..|init + [s]| - 1] == init;
  }

  lemma LessLength(a: Scenario, b: Scenario)
    requires Less(a, b)
    ensures |a.chain| <= |b.chain|
  {}

  lemma MemberOf(l: seq<Scenario>, rep: Representative)
    requires IsRepresentative(l, rep)
    ensures rep.scenario in l
  {}

  lemma JoinMeans(init: seq<Scenario>, s: Scenario, out: seq<Representative>)
    requires StrictlySorted(Less, init + [s]) && StrictlySorted(RepLess, out)
    requires forall i :: 0 <= i < |out| ==> IsRepresentative(init, out[i])
    requires forall t :: t in init ==> exists i :: 0 <= i < |out| && SameClass(out[i].scenario, t)
    ensures var out', l := Join(out, s), init + [s];
            && StrictlySorted(RepLess, out')
            && (forall i :: 0 <= i < |out'| ==> IsRepresentative(l, out'[i]))
            && (forall t :: t in l ==> exists i :: 0 <= i < |out'| && SameClass(out'[i].scenario, t))
  {
    hide Less, IsRepresentative, Terminal;
    var out', j := Join(out, s), ClassIndex(out, s);
    EarlierLess(init, s);
    forall i | 0 <= i < |out|
      ensures out'[i].scenario == out[i].scenario && Less(out[i].scenario, s) && IsRepresentative(init + [s], out'[i])
    {
      MemberOf(init, out[i]);
      LessLength(out[i].scenario, s);
      JoinOne(init, s, out[i]);
      if i < j < |out| { OneOfEach(init, out, i, j); }
      if j < i { OneOfEach(init, out, j, i); }
    }
    if j == |out| { NewClass(init, s, out); }
    JoinSorted(out, out', s);
    forall t | t in init + [s] ensures exists i :: 0 <= i < |out'| && SameClass(out'[i].scenario, t) {
      if t in init {
        var i :| 0 <= i < |out| && SameClass(out[i].scenario, t);
        assert SameClass(out'[i].scenario, t);
      } else {
        assert SameClass(out'[j].scenario, t);
      }
    }
  }

  lemma JoinSorted(out: seq<Representative>, out': seq<Representative>, s: Scenario)
    requires StrictlySorted(RepLess, out) && |out| <= |out'| <= |out| + 1
    requires forall i :: 0 <= i < |out| ==> out'[i].scenario == out[i].scenario && Less(out[i].scenario, s)
    requires |out'| > |out| ==> out'[|out|].scenario == s
    ensures StrictlySorted(RepLess, out')
  {
    hide Less;
    forall i, j | 0 <= i < j < |out'| ensures RepLess(out'[i], out'[j]) {
      if j < |out| { assert RepLess(out[i], out[j]); }
    }
  }

  /** No class has two representatives in a sorted list. */
  lemma OneOfEach(init: seq<Scenario>, out: seq<Representative>, i: nat, j: nat)
    requires StrictlySorted(RepLess, out) && i < j < |out|
    requires IsRepresentative(init, out[i]) && IsRepresentative(init, out[j])
    ensures !SameClass(out[i].scenario, out[j].scenario)
  {
    LessTransitiveBack(out[i].scenario, out[j].scenario);
    assert RepLess(out[i], out[j]);
  }

  lemma LessTransitiveBack(a: Scenario, b: Scenario)
    ensures !(Less(a, b) && Less(b, a))
  {
    LessWeak();
    if Less(a, b) && Less(b, a) { LessTransitive(a, b, a); }
  }

  lemma NewClass(init: seq<Scenario>, s: Scenario, out: seq<Representative>)
    requires StrictlySorted(Less, init + [s]) && ClassIndex(out, s) == |out|
    requires forall t :: t in init ==> exists i :: 0 <= i < |out| && SameClass(out[i].scenario, t)
    ensures IsRepresentative(init + [s], Representative(s, 1))
  {
    var l := init + [s];
    forall t | t in init ensures !SameClass(s, t) {
      var i :| 0 <= i < |out| && SameClass(out[i].scenario, t);
    }
    forall i | 0 <= i < |init| ensures !InClassOf(s)(init[i]) { assert init[i] in init; }
    CountIfNone(InClassOf(s), init);
    assert l[..|l| - 1] == init;
  }

  /** A sorted list with exactly one representative of each class of l is Representatives of l. */
  lemma RepresentativesUnique(l: seq<Scenario>, reps: seq<Representative>)
    requires StrictlySorted(Less, l) && StrictlySorted(RepLess, reps)
    requires forall i :: 0 <= i < |reps| ==> IsRepresentative(l, reps[i])
    requires forall s :: s in l ==> exists i :: 0 <= i < |reps| && SameClass(reps[i].scenario, s)
    ensures reps == RepresentativesOf(l)
  {
    hide Less, SameClass, RepresentativesOf, IsRepresentative;
    var out := RepresentativesOf(l);
    RepresentativesMean(l);
    RepLessWeak();
    forall x ensures x in out <==> x in reps {
      if x in out { SameRepresentative(l, reps, x); }
      if x in reps { SameRepresentative(l, out, x); }
    }
    SortedUnique(RepLess, reps, out);
  }

  lemma SameRepresentative(l: seq<Scenario>, reps: seq<Representative>, x: Representative)
    requires IsRepresentative(l, x)
    requires forall i :: 0 <= i < |reps| ==> IsRepresentative(l, reps[i])
    requires forall s :: s in l ==> exists i :: 0 <= i < |reps| && SameClass(reps[i].scenario, s)
    ensures x in reps
  {
    var i :| 0 <= i < |reps| && SameClass(reps[i].scenario, x.scenario);
    var y := reps[i];
    LessTransitiveBack(x.scenario, y.scenario);
    assert SameClass(x.scenario, y.scenario);
    ClassCounts(x.scenario, y.scenario, l);
  }

  /** s starts in root and ends at c. */
  function LeadsTo(root: RootRef, c: string): Scenario -> bool {
    (s: Scenario) => s.root == root && s.chain != [] && s.chain[|s.chain| - 1].component == c
  }

  ghost predicate StandsFor(l: seq<Scenario>, rep: Representative, root: RootRef, c: string) {
    && LeadsTo(root, c)(rep.scenario) && rep.scenario in l && rep.count == CountIf(LeadsTo(root, c), l)
    && forall t :: t in l && LeadsTo(root, c)(t) ==> t == rep.scenario || Less(rep.scenario, t)
  }

  /** Of a sorted listing every representative stands for the chains from one failure state to one component, and every
      such pair that some chain joins has exactly one. */
  lemma {:induction false} RepresentativesTold(l: seq<Scenario>)
    requires StrictlySorted(Less, l) && forall s :: s in l ==> s.chain != []
    ensures forall rep :: rep in RepresentativesOf(l) ==> exists root, c :: StandsFor(l, rep, root, c)
    ensures forall root, c :: (exists s :: s in l && LeadsTo(root, c)(s)) <==>
                              exists rep :: rep in RepresentativesOf(l) && StandsFor(l, rep, root, c)
    ensures forall root, c, a, b ::
              a in RepresentativesOf(l) && b in RepresentativesOf(l) && StandsFor(l, a, root, c) && StandsFor(l, b, root, c) ==> a == b
  {
    hide Less, RepresentativesOf;
    var out := RepresentativesOf(l);
    RepresentativesMean(l);
    forall rep | rep in out ensures StandsFor(l, rep, rep.scenario.root, Terminal(rep.scenario)) { ToldOne(l, out, rep); }
    forall root, c, s | s in l && LeadsTo(root, c)(s) ensures exists rep :: rep in out && StandsFor(l, rep, root, c) {
      var i :| 0 <= i < |out| && SameClass(out[i].scenario, s);
      assert out[i] in out && StandsFor(l, out[i], root, c);
    }
    forall root, c, a, b | a in out && b in out && StandsFor(l, a, root, c) && StandsFor(l, b, root, c) ensures a == b {
      LessTransitiveBack(a.scenario, b.scenario);
    }
  }

  lemma ToldOne(l: seq<Scenario>, out: seq<Representative>, rep: Representative)
    requires rep in out && (forall i :: 0 <= i < |out| ==> IsRepresentative(l, out[i])) && forall s :: s in l ==> s.chain != []
    ensures StandsFor(l, rep, rep.scenario.root, Terminal(rep.scenario))
  {
    hide Less;
    var i :| 0 <= i < |out| && out[i] == rep;
    assert IsRepresentative(l, rep);
    CountIfSame(InClassOf(rep.scenario), LeadsTo(rep.scenario.root, Terminal(rep.scenario)), l);
  }
}
