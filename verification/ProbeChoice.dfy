/** Which fact a chain most wants read next: walked from the symptom inward to the root. */
module ProbeChoice {
  import opened Ordering
  import opened Chains
  import opened Expr
  import opened Facts
  import opened Models

  // ---------------------------------------------------------------- the facts a step rests on

  /** The names a predicate reads on its own component; a right-hand word may be one. */
  function FactRefs(n: Expr.Node): set<string> {
    match n
    case And(l, r) => FactRefs(l) + FactRefs(r)
    case Or(l, r) => FactRefs(l) + FactRefs(r)
    case Cmp(c, fact, _, v) =>
      (if fact != "" && fact != "state" && c == "" then {fact} else {}) +
      (if v.VStr? && v.s != "true" && v.s != "false" then {v.s} else {})
  }

  function RefsOfState(states: seq<StateDef>, state: string): seq<string> {
    if states == [] then []
    else if states[0].name == state then (if states[0].when.Some? then SortedNames(FactRefs(states[0].when.value)) else [])
    else RefsOfState(states[1..], state)
  }

  predicate Terminal(step: Step) {
    step.observes != []
  }

  function ObservingFacts(step: Step, t: Type): seq<string> {
    if Terminal(step) then Sort(StringLess, step.observes) else RefsOfState(t.states, step.state)
  }

  /** What step rests on that its type really has; everything the type has when that is nothing. */
  function Needed(step: Step, t: Type): seq<string> {
    var valid := Filter((n: string) => n in t.facts, ObservingFacts(step, t));
    if valid == [] then t.facts else valid
  }

  lemma NeededAreFacts(step: Step, t: Type)
    ensures forall n :: n in Needed(step, t) ==> n in t.facts
  {
    FilterMeans((n: string) => n in t.facts, ObservingFacts(step, t));
  }

  predicate Unread(log: Log, c: string, fact: string) {
    LatestOf(FactsFor(log, c), fact).None?
  }

  function FirstUnread(log: Log, c: string, names: seq<string>): string {
    if names == [] then ""
    else if Unread(log, c, names[0]) then names[0]
    else FirstUnread(log, c, names[1..])
  }

  lemma {:induction false} FirstUnreadMeans(log: Log, c: string, names: seq<string>)
    ensures var n := FirstUnread(log, c, names);
            if n != "" || (exists k :: k in names && Unread(log, c, k)) then n in names && Unread(log, c, n) else n == ""
  {
    if names != [] && !Unread(log, c, names[0]) {
      FirstUnreadMeans(log, c, names[1..]);
      assert names == [names[0]] + names[1..];
    }
  }

  // ---------------------------------------------------------------- the probe

  datatype Probe = Probe(component: string, fact: string, provider: string, typeName: string)

  function ProbeForStep(m: Model, log: Log, step: Step): Option<Probe> {
    if step.component !in m.components || m.components[step.component].resolved.None? then None
    else
      var comp := m.components[step.component];
      var fact := FirstUnread(log, step.component, Needed(step, comp.resolved.value));
      if fact == "" then None
      else Some(Probe(step.component, fact, comp.provider, comp.resolved.value.name))
  }

  /** The probe of the step nearest the symptom that still has one. */
  function PickSymptomInward(m: Model, log: Log, chain: seq<Step>): Option<Probe> {
    if chain == [] then None
    else
      var p := ProbeForStep(m, log, chain[|chain| - 1]);
      if p.Some? then p else PickSymptomInward(m, log, chain[..|chain| - 1])
  }

  /** p asks for a fact its component's type has and nothing has recorded, of that type and its provider. */
  predicate Asks(m: Model, log: Log, p: Probe) {
    && p.component in m.components && m.components[p.component].resolved.Some?
    && p.fact in m.components[p.component].resolved.value.facts
    && p.provider == m.components[p.component].provider && p.typeName == m.components[p.component].resolved.value.name
    && Unread(log, p.component, p.fact)
  }

  /** Every fact step rests on has been recorded, or its component's type is not known. */
  predicate Verified(m: Model, log: Log, step: Step) {
    step.component in m.components && m.components[step.component].resolved.Some? ==>
      forall n :: n in Needed(step, m.components[step.component].resolved.value) ==> !Unread(log, step.component, n)
  }

  lemma ProbeForStepMeans(m: Model, log: Log, step: Step)
    ensures var p := ProbeForStep(m, log, step);
            p.Some? ==> p.value.component == step.component && Asks(m, log, p.value) && !Verified(m, log, step)
    ensures ProbeForStep(m, log, step).None? && NamedFacts(m) ==> Verified(m, log, step)
  {
    if step.component in m.components && m.components[step.component].resolved.Some? {
      var t := m.components[step.component].resolved.value;
      NeededAreFacts(step, t);
      FirstUnreadMeans(log, step.component, Needed(step, t));
    }
  }

  /** No type has a fact without a name. */
  ghost predicate NamedFacts(m: Model) {
    forall c :: c in m.components && m.components[c].resolved.Some? ==> "" !in m.components[c].resolved.value.facts
  }

  ghost predicate AsksInward(m: Model, log: Log, chain: seq<Step>, p: Probe, i: nat) {
    && i < |chain| && chain[i].component == p.component
    && Asks(m, log, p) && !Verified(m, log, chain[i])
    && forall j :: i < j < |chain| && NamedFacts(m) ==> Verified(m, log, chain[j])
  }

  lemma AsksFurtherIn(m: Model, log: Log, chain: seq<Step>, p: Probe, i: nat)
    requires chain != [] && AsksInward(m, log, chain[..|chain| - 1], p, i)
    requires NamedFacts(m) ==> Verified(m, log, chain[|chain| - 1])
    ensures AsksInward(m, log, chain, p, i)
    ensures !Verified(m, log, chain[i])
  {
    hide Verified, Asks, NamedFacts;
    var init := chain[..|chain| - 1];
    assert chain[i] == init[i];
    forall j | i < j < |chain| && NamedFacts(m) ensures Verified(m, log, chain[j]) {
      if j < |init| { assert init[j] == chain[j]; }
    }
  }

  // ---------------------------------------------------------------- the probe, in the model's own terms

  /** The comparison speaks of fact k of its own component: by name on its left, or by a word on its right. */
  function Speaks(k: string): Expr.Node -> bool {
    (n: Expr.Node) => n.Cmp? && ((n.component == "" && n.fact == k && k != "" && k != "state") ||
                                 (n.value == VStr(k) && k != "true" && k != "false"))
  }

  lemma {:induction false} FactRefsMean(n: Expr.Node)
    ensures forall k :: k in FactRefs(n) <==> Somewhere(n, Speaks(k))
  {
    hide Somewhere;
    forall k { SomewhereMeans(n, Speaks(k)); }
    match n
    case And(l, r) => FactRefsMean(l); FactRefsMean(r);
    case Or(l, r) => FactRefsMean(l); FactRefsMean(r);
    case Cmp(_, _, _, _) =>
  }

  /** step rests on fact k of its type: one the chain observes there, when it ends there; otherwise one that the predicate
      of the first state of its name speaks of. */
  ghost predicate RestsOn(step: Step, t: Type, k: string) {
    k in t.facts &&
    if step.observes != [] then k in step.observes
    else exists i :: FirstOfName(t.states, step.state, i) && t.states[i].when.Some? && Somewhere(t.states[i].when.value, Speaks(k))
  }

  /** k is to be read for step: what it rests on, and every fact of the type where it rests on none. */
  ghost predicate ToRead(step: Step, t: Type, k: string) {
    if exists l :: RestsOn(step, t, l) then RestsOn(step, t, k) else k in t.facts
  }

  lemma {:induction false} RefsOfStateMean(states: seq<StateDef>, state: string)
    ensures forall k :: k in RefsOfState(states, state) <==>
              exists i :: FirstOfName(states, state, i) && states[i].when.Some? && Somewhere(states[i].when.value, Speaks(k))
    ensures Sorted(StringLess, RefsOfState(states, state))
  {
    hide Somewhere, FactRefs;
    if states != [] {
      var rest := states[1..];
      RefsOfStateMean(rest, state);
      assert forall i :: 0 <= i < |rest| ==> rest[i] == states[i + 1];
      if states[0].name == state {
        assert FirstOfName(states, state, 0);
        if states[0].when.Some? {
          FactRefsMean(states[0].when.value);
          StringLessWeak();
        }
      } else {
        forall i | FirstOfName(rest, state, i) ensures FirstOfName(states, state, i + 1) {
          forall j | 0 <= j < i + 1 ensures states[j].name != state { if j > 0 { assert rest[j - 1] == states[j]; } }
        }
        forall i | FirstOfName(states, state, i) ensures FirstOfName(rest, state, i - 1) {
          forall j | 0 <= j < i - 1 ensures rest[j].name != state { assert rest[j] == states[j + 1]; }
        }
      }
    }
  }

  lemma {:induction false} NeededMeans(step: Step, t: Type)
    ensures forall k :: k in Needed(step, t) <==> ToRead(step, t, k)
    ensures StrictlySorted(StringLess, t.facts) ==> Sorted(StringLess, Needed(step, t))
  {
    hide RefsOfState, Filter, Sort, FirstOfName, Somewhere, StringLess, WeakOrder;
    var p, names := (n: string) => n in t.facts, ObservingFacts(step, t);
    RefsOfStateMean(t.states, step.state);
    SortElements(StringLess, step.observes);
    StringLessWeak();
    SortSorts(StringLess, step.observes);
    FilterMeans(p, names);
    FilterSorted(StringLess, p, names);
    forall k ensures k in Filter(p, names) <==> RestsOn(step, t, k) {}
    if Filter(p, names) != [] { HasFirst(Filter(p, names)); }
    if StrictlySorted(StringLess, t.facts) { StrictNames(t.facts); }
  }

  lemma StrictNames(names: seq<string>)
    requires StrictlySorted(StringLess, names)
    ensures Sorted(StringLess, names)
  {
    StringLessWeak();
  }

  /** p asks for the least unread fact to be read for step, of its component's provider and type. */
  ghost predicate Wants(m: Model, log: Log, step: Step, p: Probe) {
    && step.component in m.components && m.components[step.component].resolved.Some?
    && var comp := m.components[step.component];
       var t := comp.resolved.value;
       && p == Probe(step.component, p.fact, comp.provider, t.name)
       && ToRead(step, t, p.fact) && Unread(log, step.component, p.fact)
       && forall k :: ToRead(step, t, k) && Unread(log, step.component, k) && k != p.fact ==> StringLess(p.fact, k)
  }

  /** Every type's facts are listed in order, and each has a name. */
  ghost predicate OrderedFacts(m: Model) {
    NamedFacts(m) &&
    forall c :: c in m.components && m.components[c].resolved.Some? ==> StrictlySorted(StringLess, m.components[c].resolved.value.facts)
  }

  lemma {:induction false} LeastUnread(log: Log, c: string, names: seq<string>)
    requires Sorted(StringLess, names) && "" !in names
    ensures var n := FirstUnread(log, c, names);
            if exists k :: k in names && Unread(log, c, k)
            then n in names && Unread(log, c, n) && forall k :: k in names && Unread(log, c, k) && k != n ==> StringLess(n, k)
            else n == ""
  {
    hide StringLess;
    if names != [] {
      var rest := names[1..];
      assert forall i :: 0 <= i < |rest| ==> rest[i] == names[i + 1];
      assert names == [names[0]] + rest;
      LeastUnread(log, c, rest);
      forall k | k in names && k != names[0] ensures StringLess(names[0], k) {
        var i :| 0 <= i < |names| && names[i] == k;
        StringTotal(names[0], k);
      }
    }
  }

  lemma {:induction false} ProbeForStepIs(m: Model, log: Log, step: Step)
    requires OrderedFacts(m)
    ensures forall p :: ProbeForStep(m, log, step) == Some(p) <==> Wants(m, log, step, p)
  {
    hide Needed, FirstUnread, Unread, ToRead, StringLess, Sorted;
    if step.component in m.components && m.components[step.component].resolved.Some? {
      var comp, c := m.components[step.component], step.component;
      var t := comp.resolved.value;
      NeededMeans(step, t);
      NeededAreFacts(step, t);
      LeastUnread(log, c, Needed(step, t));
      StringLessAsymmetric();
    }
  }

  lemma StringLessAsymmetric()
    ensures forall a, b :: StringLess(a, b) ==> !StringLess(b, a)
  {
    forall a, b | StringLess(a, b) ensures !StringLess(b, a) { StringAlmost(a, b, a); }
  }

  /** The probe a chain wants is the one the step nearest its end wants of those that want any, and there is none exactly
      when no step wants one. */
  lemma {:induction false} PickIs(m: Model, log: Log, chain: seq<Step>)
    requires OrderedFacts(m)
    ensures forall p :: PickSymptomInward(m, log, chain) == Some(p) <==>
              exists i :: 0 <= i < |chain| && Wants(m, log, chain[i], p) && forall j, q :: i < j < |chain| ==> !Wants(m, log, chain[j], q)
  {
    hide ProbeForStep, Wants, OrderedFacts;
    if chain != [] {
      var n := |chain| - 1;
      var init := chain[..n];
      PickIs(m, log, init);
      ProbeForStepIs(m, log, chain[n]);
      var here := ProbeForStep(m, log, chain[n]);
      assert forall i :: 0 <= i < n ==> init[i] == chain[i];
      if here.None? {
        forall q ensures !Wants(m, log, chain[n], q) { assert here != Some(q); }
      } else {
        assert Wants(m, log, chain[n], here.value);
      }
    }
  }

  /** Nothing has been recorded under the fact's name. */
  lemma UnreadMeans(log: Log, c: string, k: string)
    ensures Unread(log, c, k) <==> (c in log ==> forall i :: 0 <= i < |log[c]| ==> log[c][i].key != k)
  {
    LatestMeans(FactsFor(log, c), k);
  }

  /** A chain is asked about at its unverified step nearest the symptom, for a fact nobody has recorded;
      it is left alone when every step is verified, and only then. */
  lemma {:induction false} PickMeans(m: Model, log: Log, chain: seq<Step>)
    ensures var p := PickSymptomInward(m, log, chain);
            p.Some? ==> exists i: nat :: AsksInward(m, log, chain, p.value, i)
    ensures NamedFacts(m) ==>
              (PickSymptomInward(m, log, chain).None? <==> forall i :: 0 <= i < |chain| ==> Verified(m, log, chain[i]))
  {
    hide Verified, Asks, NamedFacts, ProbeForStep;
    if chain != [] {
      var init := chain[..|chain| - 1];
      ProbeForStepMeans(m, log, chain[|chain| - 1]);
      PickMeans(m, log, init);
      if ProbeForStep(m, log, chain[|chain| - 1]).Some? {
        assert AsksInward(m, log, chain, PickSymptomInward(m, log, chain).value, |chain| - 1);
      } else if PickSymptomInward(m, log, init).Some? {
        var p := PickSymptomInward(m, log, init).value;
        var i: nat :| AsksInward(m, log, init, p, i);
        AsksFurtherIn(m, log, chain, p, i);
      } else {
        assert forall j :: 0 <= j < |init| ==> init[j] == chain[j];
      }
    }
  }
}
