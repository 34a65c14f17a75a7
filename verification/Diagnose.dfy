/** The probe loop: suggest, ask, record, until the strategy concludes, something stops it, or the budget is spent. */
module Diagnose {
  import opened Ordering
  import opened FailureGraph
  import opened Chains
  import opened LiveChains
  import opened Layers
  import opened Enumeration
  import opened Expr
  import opened Facts
  import opened Models
  import opened LiveSet
  import opened ProbeChoice
  import opened Occam
  import RootCauses
  import Traversal

  // ---------------------------------------------------------------- recording an answer

  /** What running a probe gives back. Failed is any error that is not forbidden and not transient. */
  datatype Answer = Found(value: Option<Value>) | Missing | Refused | TryAgain | Failed

  /** The fact an answer is recorded as; a failed run records nothing. */
  function Recorded(fact: string, res: Answer): Option<Fact> {
    match res
    case Found(v) => Some(Fact(fact, v, Normal))
    case Missing => Some(Fact(fact, None, NotFound))
    case Refused => Some(Fact(fact, None, Forbidden))
    case TryAgain => Some(Fact(fact, None, Transient))
    case Failed => None
  }

  method Record(store: Store, c: string, fact: string, res: Answer) returns (ok: bool)
    modifies store`log
    ensures ok <==> !res.Failed?
    ensures store.log == if res.Failed? then old(store.log) else Appended(old(store.log), c, Recorded(fact, res).value)
  {
    var value: Option<Value>, status := None, Normal;
    match res {
      case Refused => status := Forbidden;
      case TryAgain => status := Transient;
      case Failed => return false;
      case Missing => status := NotFound;
      case Found(v) => value := v;
    }
    store.Append(c, Fact(fact, value, status));
    return true;
  }

  /** What an answer makes known of the pair it is about: its value when it gave one, and no value otherwise; that it was
      refused or should be tried again when that is what it said; and that the component is not there when it said so and
      no value is known of it. */
  lemma AnswerMeans(log: Log, c: string, fact: string, res: Answer)
    requires !res.Failed?
    ensures var after := Appended(log, c, Recorded(fact, res).value);
            var latest := LatestOf(FactsFor(after, c), fact);
            && latest.Some?
            && (forall v :: ValueOf(after, c, fact) == Some(v) <==> res == Found(Some(v)))
            && (latest.value.status == Forbidden <==> res.Refused?)
            && (latest.value.status == Transient <==> res.TryAgain?)
            && (Absent(FactsFor(after, c)) <==>
                  (forall f :: f in FactsFor(log, c) ==> f.value.None?) && !(res.Found? && res.value.Some?) &&
                  (res.Missing? || exists f :: f in FactsFor(log, c) && f.status == NotFound))
  {
    var f := Recorded(fact, res).value;
    AppendedLatest(log, c, f, c, fact);
    var list := FactsFor(log, c);
    var next := list + [f];
    assert FactsFor(Appended(log, c, f), c) == next;
    assert next[|list|] == f && forall i :: 0 <= i < |list| ==> next[i] == list[i] && list[i] in list;
    if res.Missing? { assert next[|list|].status == NotFound; }
    if e :| e in list && e.status == NotFound {
      var i :| 0 <= i < |list| && list[i] == e;
      assert next[i].status == NotFound;
    }
  }

  // ---------------------------------------------------------------- what a run may rest on

  /** What answers the probes, run by run, and whether a gate or the deadline ends the loop instead. */
  datatype Environment = Environment(answer: (nat, Probe) -> Answer, halts: (nat, Probe) -> bool)

  /** Every value the environment ever gives is the one the world has. */
  ghost predicate Faithful(env: Environment, full: World) {
    forall n: nat, p: Probe ::
      env.answer(n, p).Found? && env.answer(n, p).value.Some? ==> full(p.component, p.fact) == env.answer(n, p).value
  }

  datatype Report =
    | RootCauseFound(root: Named, covered: bool)
    | NothingFits(reason: Reason)
    | WalkEnded(decision: Traversal.WalkDecision, covered: bool)
    | Halted
    | ProbeFailed(probe: Probe)
    | BudgetExhausted

  /** Scenario s is among those decided over when log is known, be it live or not: one of the scenarios given; a chain of
      the graph while it can be counted; and listed when it cannot. */
  ghost predicate Weighed(m: Model, log: Log, scs: seq<Named>, graph: Option<Graph>, s: Scenario) {
    if graph.None? || scs != [] then exists n :: n in scs && n.scenario == s
    else if Tame(graph.value, GraphLiveness(m, log)) then IsScenario(graph.value, s)
    else s in Listing(graph.value)
  }

  /** A chain that repeats no component before its last step is weighed whatever becomes known. */
  lemma SimpleWeighed(m: Model, log: Log, g: Graph, s: Scenario)
    requires WellFormed(g) && IsScenario(g, s) && Simple(NodesOf(s.chain))
    ensures Weighed(m, log, [], Some(g), s)
  {
    hide WellFormed, Tame, Simple, IsChain, IsListed, Listing, ScenarioOf, GoesOn;
    ListingMeansAny(g);
    CommonPart(g, NodesOf(s.chain));
  }

  /** On an acyclic graph exactly what is listed is weighed. */
  lemma AcyclicWeighed(m: Model, log: Log, g: Graph, s: Scenario)
    requires WellFormed(g) && Acyclic(g)
    ensures Weighed(m, log, [], Some(g), s) <==> s in Listing(g)
  {
    hide WellFormed, Acyclic, Tame, IsScenario, Listing;
    ListingMeans(g);
  }

  /** Every fact of every typed component that nothing has been recorded for. */
  function Uncollected(m: Model, log: Log): set<(string, string)> {
    set c, k | c in m.components && m.components[c].resolved.Some? && k in m.components[c].resolved.value.facts &&
               Unread(log, c, k) :: (c, k)
  }

  /** Recording an answer for an unread fact takes that pair, and no other, off the uncollected ones. */
  lemma {:induction false} OneFewer(m: Model, log: Log, p: Probe, f: Fact)
    requires Asks(m, log, p) && f.key == p.fact
    ensures (p.component, p.fact) in Uncollected(m, log)
    ensures Uncollected(m, Appended(log, p.component, f)) == Uncollected(m, log) - {(p.component, p.fact)}
  {
    var log' := Appended(log, p.component, f);
    forall c, k ensures Unread(log', c, k) <==> Unread(log, c, k) && (c, k) != (p.component, p.fact) {
      AppendedLatest(log, p.component, f, c, k);
    }
  }

  lemma {:induction false} StillKnowsLess(log: Log, full: World, env: Environment, n: nat, p: Probe)
    requires KnowsLess(log, full) && Faithful(env, full) && !env.answer(n, p).Failed?
    ensures KnowsLess(Appended(log, p.component, Recorded(p.fact, env.answer(n, p)).value), full)
  {
    var f := Recorded(p.fact, env.answer(n, p)).value;
    forall c, k | ValueOf(Appended(log, p.component, f), c, k).Some?
      ensures full(c, k) == ValueOf(Appended(log, p.component, f), c, k)
    {
      AppendedLatest(log, p.component, f, c, k);
    }
  }

  /** Whatever decision settles the matter while s is live: it names s exactly when s is weighed. */
  lemma {:induction false} TruthSurvives(sit: Situation, scs: seq<Named>, graph: Option<Graph>, digest: string -> string, s: Scenario)
    requires graph.Some? && scs == [] ==> WellFormed(graph.value)
    requires ScenarioLive(GraphLiveness(sit.model, sit.log), s) && Concludes(Taken(sit, scs, graph, digest))
    ensures var d := Taken(sit, scs, graph, digest);
            d.Done? && d.rootCause.scenario == s <==> Weighed(sit.model, sit.log, scs, graph, s)
  {
    hide GraphLiveness, DecisionOver, PricedDecision, Filter, Tame, ChainList, Listing, ScenarioLive, WellFormed, IsScenario, StepCount;
    var live := GraphLiveness(sit.model, sit.log);
    if graph.None? || scs != [] {
      NamedSettles(sit, live, scs, s);
    } else if Tame(graph.value, live) {
      var l := ChainList(graph.value, live);
      ChainListMeans(graph.value, live);
      PricedIsOpen(sit, StepCount(l), ByContent(digest, l));
      ContentHolds(digest, l, s);
    } else {
      NamedSettles(sit, live, NamedAll(digest, Listing(graph.value)), s);
      NamedHolds(digest, Listing(graph.value), s);
    }
  }

  lemma {:induction false} NamedSettles(sit: Situation, live: Liveness, scs: seq<Named>, s: Scenario)
    requires live == GraphLiveness(sit.model, sit.log) && ScenarioLive(live, s) && Concludes(DecisionOver(sit, Filter(NamedLive(live), scs)))
    ensures var d := DecisionOver(sit, Filter(NamedLive(live), scs));
            d.Done? && d.rootCause.scenario == s <==> exists n :: n in scs && n.scenario == s
  {
    hide GraphLiveness, DecisionOver, ScenarioLive;
    var left := Filter(NamedLive(live), scs);
    DecisionIsOpen(sit, left);
    FilterMeans(NamedLive(live), scs);
    if n :| n in scs && n.scenario == s { assert n in left; }
  }

  lemma ContentHolds(digest: string -> string, l: seq<Scenario>, s: Scenario)
    ensures (exists n :: n in ByContent(digest, l) && n.scenario == s) <==> s in l
  {
    var ns := ByContent(digest, l);
    if s in l {
      var i :| 0 <= i < |l| && l[i] == s;
      assert ns[i] in ns;
    }
  }

  lemma NamedHolds(digest: string -> string, l: seq<Scenario>, s: Scenario)
    ensures (exists n :: n in NamedAll(digest, l) && n.scenario == s) <==> s in l
  {
    IdsDistinct(digest, l);
    var ns := NamedAll(digest, l);
    if s in l {
      var i :| 0 <= i < |l| && l[i] == s;
      assert ns[i] in ns;
    }
  }

  // ---------------------------------------------------------------- the loop

  /** Pairs probed so far, each once. */
  ghost predicate ProbedOnce(trail: seq<Probe>) {
    forall i, j :: 0 <= i < j < |trail| ==> (trail[i].component, trail[i].fact) != (trail[j].component, trail[j].fact)
  }

  /** full is a world in which s happened, seen truly by what was known before the run and by every probe. */
  ghost predicate Happened(m: Model, log: Log, env: Environment, full: World, s: Scenario) {
    KnowsLess(log, full) && Faithful(env, full) && TrueChain(m, full, s)
  }

  class DiagnoseLoop {
    const m: Model
    const scs: seq<Named>
    const graph: Option<Graph>
    const digest: string -> string
    const suspects: seq<Suspect>
    const env: Environment
    const store: Store
    var trail: seq<Probe>

    constructor (m: Model, scs: seq<Named>, graph: Option<Graph>, digest: string -> string, suspects: seq<Suspect>,
                 env: Environment, store: Store)
      ensures this.m == m && this.scs == scs && this.graph == graph && this.digest == digest
      ensures this.suspects == suspects && this.env == env && this.store == store && trail == []
    {
      this.m, this.scs, this.graph, this.digest := m, scs, graph, digest;
      this.suspects, this.env, this.store, trail := suspects, env, store, [];
    }

    /** There is nothing to enumerate, so the components in play are walked instead. */
    predicate ByWalk() {
      |scs| == 0 && graph.None?
    }

    ghost predicate Ready() {
      (graph.Some? && scs == [] ==> WellFormed(graph.value)) && (ByWalk() ==> RootCauses.OrderLists(m))
    }

    /** What is decided over the scenarios or the graph, given what is known. */
    ghost function DecisionAt(log: Log): Decision {
      Taken(Situation(m, log, suspects), scs, graph, digest)
    }

    /** A strategy's suggestion: a probe, or a report that ends the run. */
    method Suggest() returns (report: Option<Report>, probe: Option<Probe>)
      requires Ready()
      ensures report.Some? <==> probe.None?
      ensures report.Some? ==> ReportSays(store.log, report.value) && EndsTheRun(report.value)
      ensures probe.Some? ==> Asks(m, store.log, probe.value) && StillAsks(store.log)
    {
      hide Asks, Covered, Taken, GraphLiveness, NoCollision, WellFormed, Listing, FirstNamed, Traversal.WalkDecides;
      if ByWalk() {
        var d := Traversal.SuggestByWalk(m, store);
        match d {
          case AskNext(p) =>
            Traversal.AsksWhileUnread(m, store.log, d);
            return None, Some(p);
          case Standalone(c, _) =>
            var covered := RedundancyCovered(m, store, c);
            return Some(WalkEnded(d, covered)), None;
          case _ => return Some(WalkEnded(d, false)), None;
        }
      }
      var d := SuggestProbe(m, store, suspects, scs, graph, digest);
      match d {
        case Done(root) =>
          var covered := RedundancyCovered(m, store, root.scenario.root.component);
          return Some(RootCauseFound(root, covered)), None;
        case Stuck(reason) => return Some(NothingFits(reason)), None;
        case Ask(p, _, _) => return None, Some(p);
      }
    }

    lemma Unanswered(log: Log, p: Probe)
      requires StillAsks(log)
      ensures ReportSays(log, Halted) && ReportSays(log, ProbeFailed(p))
    {}

    /** One iteration. It ends the run with a report, or records the answer to a question never asked before. */
    method Step() returns (report: Option<Report>)
      requires Ready()
      modifies this`trail, store`log
      ensures report.Some? ==> trail == old(trail) && store.log == old(store.log)
      ensures report.Some? ==> ReportSays(store.log, report.value) && !report.value.BudgetExhausted?
      ensures report.None? ==> StillAsks(old(store.log))
      ensures report.None? ==>
                && |trail| == |old(trail)| + 1 && trail[..|old(trail)|] == old(trail)
                && var p := trail[|old(trail)|];
                   && Asks(m, old(store.log), p) && !env.answer(|old(trail)|, p).Failed?
                   && store.log == Appended(old(store.log), p.component, Recorded(p.fact, env.answer(|old(trail)|, p)).value)
    {
      hide Asks, StillAsks, ReportSays, Ready, Appended, Recorded;
      var end, probe := Suggest();
      if end.Some? { return end; }
      var p := probe.value;
      Unanswered(store.log, p);
      if env.halts(|trail|, p) { return Some(Halted); }
      var ok := Record(store, p.component, p.fact, env.answer(|trail|, p));
      if !ok { return Some(ProbeFailed(p)); }
      trail := trail + [p];
      return None;
    }

    /** Whatever world the run is faithful to, what was recorded after is true of it when what was before is. */
    ghost predicate KeepsTruth(before: Log, after: Log) {
      forall full :: KnowsLess(before, full) && Faithful(env, full) ==> KnowsLess(after, full)
    }

    /** The report says that nothing fits, or that one scenario does. */
    predicate Settles(report: Report) {
      report.RootCauseFound? || report == NothingFits(NoneMatches)
    }

    /** The chain that happened in such a world is live; and a report that settles the matter names it exactly when it is
        among those weighed. */
    ghost predicate NeverRulesOut(before: Log, after: Log, report: Report) {
      forall full, s :: Happened(m, before, env, full, s) ==>
        && ScenarioLive(GraphLiveness(m, after), s)
        && (Settles(report) ==>
              (report.RootCauseFound? && report.root.scenario == s <==> Weighed(m, after, scs, graph, s)))
    }

    /** What is known once the probes of ps have been answered, one after the other. */
    ghost function Answered(log: Log, ps: seq<Probe>): Log {
      if ps == [] then log
      else
        var n := |ps| - 1;
        var known, answer := Answered(log, ps[..n]), env.answer(n, ps[n]);
        if answer.Failed? then known else Appended(known, ps[n].component, Recorded(ps[n].fact, answer).value)
    }

    lemma AnsweredOne(log: Log, before: seq<Probe>, ps: seq<Probe>)
      requires |ps| == |before| + 1 && ps[..|before|] == before && !env.answer(|before|, ps[|before|]).Failed?
      ensures var p := ps[|before|];
              Answered(log, ps) == Appended(Answered(log, before), p.component, Recorded(p.fact, env.answer(|before|, p)).value)
    {}

    predicate EndsTheRun(report: Report) {
      report.RootCauseFound? || report.NothingFits? || report.WalkEnded?
    }

    /** The strategy still had a question. */
    ghost predicate StillAsks(log: Log) {
      if ByWalk() then exists p :: Traversal.WalkDecides(m, log, Traversal.AskNext(p)) else DecisionAt(log).Ask?
    }

    ghost predicate ReportSays(log: Log, report: Report) {
      match report
      case RootCauseFound(root, covered) =>
        !ByWalk() && DecisionAt(log) == Done(root) && covered == Covered(m, log, root.scenario.root.component)
      case NothingFits(reason) => !ByWalk() && DecisionAt(log) == Stuck(reason)
      case WalkEnded(d, covered) =>
        && ByWalk() && !d.AskNext? && Traversal.WalkDecides(m, log, d)
        && covered == (d.Standalone? && Covered(m, log, d.component))
      case BudgetExhausted => true
      case _ => StillAsks(log)
    }

    lemma TruthKept(before: Log, log: Log, n: nat, p: Probe)
      requires KeepsTruth(before, log) && !env.answer(n, p).Failed?
      ensures KeepsTruth(before, Appended(log, p.component, Recorded(p.fact, env.answer(n, p)).value))
    {
      hide KnowsLess, Faithful, Appended;
      forall full | KnowsLess(before, full) && Faithful(env, full)
        ensures KnowsLess(Appended(log, p.component, Recorded(p.fact, env.answer(n, p)).value), full)
      {
        StillKnowsLess(log, full, env, n, p);
      }
    }

    lemma TruthReported(before: Log, log: Log, report: Report)
      requires Ready() && KeepsTruth(before, log) && ReportSays(log, report)
      ensures NeverRulesOut(before, log, report)
    {
      hide TrueChain, KnowsLess, Faithful, GraphLiveness, Taken, Covered, Weighed, WellFormed, ScenarioLive;
      forall full, s | Happened(m, before, env, full, s)
        ensures ScenarioLive(GraphLiveness(m, log), s)
        ensures Settles(report) ==>
                  (report.RootCauseFound? && report.root.scenario == s <==> Weighed(m, log, scs, graph, s))
      {
        TrueChainStaysLive(m, log, full, s);
        if Settles(report) { TruthSurvives(Situation(m, log, suspects), scs, graph, digest, s); }
      }
    }

    /** What a run keeps, from what was known before it to what is known once ps has been asked. */
    ghost predicate Kept(before: Log, log: Log, ps: seq<Probe>) {
      && ProbedOnce(ps)
      && (forall i :: 0 <= i < |ps| ==> (ps[i].component, ps[i].fact) !in Uncollected(m, log))
      && |ps| + |Uncollected(m, log)| == |Uncollected(m, before)|
      && log == Answered(before, ps)
      && KeepsTruth(before, log)
    }

    lemma {:induction false} StepKeeps(before: Log, log: Log, ps: seq<Probe>, ps': seq<Probe>)
      requires Kept(before, log, ps) && |ps'| == |ps| + 1 && ps'[..|ps|] == ps
      requires Asks(m, log, ps'[|ps|]) && !env.answer(|ps|, ps'[|ps|]).Failed?
      ensures var p := ps'[|ps|]; Kept(before, Appended(log, p.component, Recorded(p.fact, env.answer(|ps|, p)).value), ps')
    {
      hide KeepsTruth, Asks, Uncollected, Recorded, Appended, Answered;
      var p := ps'[|ps|];
      RecordedKey(p, env.answer(|ps|, p));
      AnsweredOne(before, ps, ps');
      OneFewer(m, log, p, Recorded(p.fact, env.answer(|ps|, p)).value);
      TruthKept(before, log, |ps|, p);
    }

    /** The whole run, over whatever scenarios or well-formed graph it is given. It asks about no pair twice, records
        something new each time and so ends within the pairs there are; and if what is recorded is true of a world in
        which a chain happened, that chain stays live, and a run that settles the matter names it exactly when it is
        among the scenarios weighed. */
    method Run(budget: nat) returns (report: Report)
      requires Ready() && trail == []
      modifies this`trail, store`log
      ensures |trail| <= budget && (report.BudgetExhausted? ==> |trail| == budget)
      ensures ProbedOnce(trail)
      ensures |trail| + |Uncollected(m, store.log)| == |Uncollected(m, old(store.log))|
      ensures budget > |Uncollected(m, old(store.log))| ==> !report.BudgetExhausted?
      ensures ReportSays(store.log, report) && store.log == Answered(old(store.log), trail)
      ensures KeepsTruth(old(store.log), store.log) && NeverRulesOut(old(store.log), store.log, report)
    {
      hide KeepsTruth, NeverRulesOut, ReportSays, Ready, Asks, Uncollected, Recorded, Appended, Answered;
      ghost var before := store.log;
      assert Kept(before, before, []) by { NothingKept(before); }
      while |trail| < budget
        invariant |trail| <= budget && Kept(before, store.log, trail)
        decreases budget - |trail|
      {
        ghost var log, ps := store.log, trail;
        var r := Step();
        if r.Some? {
          TruthReported(before, store.log, r.value);
          return r.value;
        }
        StepKeeps(before, log, ps, trail);
      }
      report := BudgetExhausted;
      NoReport(store.log);
      TruthReported(before, store.log, report);
    }

    lemma NothingKept(log: Log)
      ensures Kept(log, log, [])
    {}

    /** Where nothing fits there is only that to report. */
    lemma StuckReports(log: Log, reason: Reason, report: Report)
      requires !ByWalk() && DecisionAt(log) == Stuck(reason) && ReportSays(log, report) && !report.BudgetExhausted?
      ensures report == NothingFits(reason)
    {
      hide Taken, Covered;
    }

    lemma NoReport(log: Log)
      ensures ReportSays(log, BudgetExhausted)
    {}
  }

  lemma RecordedKey(p: Probe, res: Answer)
    requires !res.Failed?
    ensures Recorded(p.fact, res).Some? && Recorded(p.fact, res).value.key == p.fact
  {}
}
