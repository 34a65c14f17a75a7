/** What the cycle check is for: a model that passes it can be counted and grouped, whatever the facts. */
module CleanModels {
  import opened FailureGraph
  import opened Chains
  import opened LiveChains
  import opened Models
  import opened DepGraph
  import opened GraphBuilder
  import opened Ordering
  import opened Enumeration
  import opened Representatives
  import Counting
  import ClassListing

  /** Check, build, count and group: with no dependency cycle found neither of the last two ever meets one, and what
      they give is the listing's. */
  method CountAndGroup(m: Model, live: Liveness, digest: string -> string)
    returns (cycle: seq<string>, g: FailureGraph.Graph, counted: Counting.CountResult, grouped: ClassListing.ClassesResult)
    requires FitNames(m) && forall c :: c in m.components ==> c in m.order
    ensures cycle == [] <==> AcyclicModel(m)
    ensures cycle == [] ==>
              && counted.Counted? && counted.counts.live == |LiveListing(g, live)|
              && grouped.ClassesOf?
              && grouped.alive == ClassListing.TitledAll(digest, RepresentativesOf(Filter(IsLiveScenario(live), Listing(g))))
              && grouped.dead == ClassListing.TitledAll(digest, RepresentativesOf(Filter(ClassListing.IsDeadScenario(live), Listing(g))))
  {
    hide AcyclicModel, IsGraphOf, ExactReach, FitNames, WellFormed, Acyclic, LiveListing, ChainList, Tame, NoRepeat,
      RepresentativesOf;
    cycle := DetectCycle(m);
    g := BuildGraph(m);
    ghost var reach :| IsGraphOf(m, reach, g) && (AcyclicModel(m) ==> ExactReach(m, reach));
    WellFormedGraph(m, reach, g);
    if AcyclicModel(m) { AcyclicGraph(m, reach, g); }
    counted := Counting.Count(g, live);
    grouped := ClassListing.ClassesOfGraph(g, live, digest);
  }
}
