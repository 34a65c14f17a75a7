# Verified model of the mgtt diagnosis engine

mgtt finds the root cause of an incident by reasoning over a *failure graph*: components, their failure states, and
the links a failure travels to the components that depend on them. Every walk from a failure state to a place where
facts can be observed is a *chain*, one way the incident may have happened. The engine keeps the chains that the facts
read so far do not contradict and asks for the fact that tells most.

The engine computes its answers twice. The simple form lists every chain, filters, counts, groups and ranks the list.
The fast form never lists a chain: it counts by memoised suffix counts and prefix counts in topological order, yields
live chains layer by layer, carries least paths and counts per class, and decides over those. This project models
both forms in Dafny and proves that they agree on every well-formed acyclic graph, under every liveness; on graphs whose
components can come back to one another it proves when counting still works and how far it then parts from listing.
Beside that it
proves what each form rests on and what it is for: three-valued evaluation that is monotone in information, liveness
that never eliminates the chain that happened, a probe loop that keeps to that over whole runs, the rule that names a
root cause, the cycle check that makes graphs acyclic, the redundancy rules at build time and at run time, two
breadth-first walks that agree, the impact report, which says what the chains say, a search for disagreements and for
witnesses that misses nothing between the values it tries, facts made up for a state that do bring it about, a parser
that reads exactly its grammar from text, and a command line that arrives as it was sent.

## How it is laid out

| file | what it holds |
|---|---|
| `Ordering.dfy`, `Walks.dfy`, `PostOrder.dfy` | byte-wise string order, stable sort, uniqueness of sorted listings; walks and ranks; depth-first post-order |
| `FailureGraph.dfy`, `Chains.dfy` | the graph, its edges, well-formedness and acyclicity; chains stated without any enumeration; scenario order |
| `Enumeration.dfy` | `Expand`: the recursive walk with shared marks, duplicates, sorting, IDs; what the listing holds |
| `LiveChains.dfy`, `Counting.dfy` | `Count`: memoised suffixes, prefixes in topological order, the conservation argument; when it meets a cycle |
| `ComponentCycles.dfy` | two graphs with component cycles, counted |
| `Layers.dfy` | `LiveByLength`: the frontier loop and early stopping |
| `Representatives.dfy`, `ClassPaths.dfy`, `Classes.dfy`, `ClassListing.dfy` | `Representatives` and `Classes` |
| `Lexer.dfy`, `Parser.dfy`, `Expr.dfy` | predicates: text to tokens, tokens to trees, three-valued evaluation, information order |
| `Facts.dfy`, `Models.dfy` | the fact store; models, verdicts, redundancy groups |
| `LiveSet.dfy`, `ProbeChoice.dfy`, `Occam.dfy` | liveness in both forms, the next fact, the decision in both forms |
| `RootCauses.dfy`, `Paths.dfy` | derived states, the two breadth-first walks, the root-cause rule |
| `Traversal.dfy`, `Diagnose.dfy` | the strategy without scenarios, the probe loop |
| `LoopRuns.dfy` | a graph with a component cycle, decided over and run over |
| `DepGraph.dfy`, `GraphBuilder.dfy` | dependency graph, cycle detection, entry point; building the failure graph, the redundancy rules |
| `CleanModels.dfy` | what passing the cycle check is worth |
| `Impacts.dfy` | what a failure breaks: the breadth-first search over failure states, and what its report means in chains |
| `Consistency.dfy`, `Witnesses.dfy` | the search for facts on which rules and states part company, and for facts that show a state |
| `Synthesis.dfy` | facts made up so that a predicate comes out as wanted |
| `Argv.dfy` | the command line between the engine and a provider's runner |

## What is assumed, and where it comes from

* A graph is *well formed* when no component repeats a state or a dependent and no name holds `:` or `>`, the
  separators of a chain's key. `GraphBuilder.WellFormedGraph` shows which models give one.
* A graph is *acyclic* when its components can be ranked along their links. `DepGraph.DetectCycle` decides that for a
  model and `GraphBuilder.AcyclicGraph` carries it to the graph; `CleanModels.CountAndGroup` puts the two together. A
  stored graph need not be acyclic. On component cycles the listing blocks a repeated component while the counts block
  only a repeated node: `Enumeration.ListingMeansAny` says exactly what is listed on any graph, and `Counting.Count`
  meets a cycle exactly when some live way from a live root comes back to a node (`LiveChains.Tame`), counting the live
  chains otherwise, those that come back to a component included.
* SHA-256 is a parameter `digest`. Where names are compared, no two chains of the graph may share a digest.
* A model's declaration order lists every component, each under a name; loading a model sees to it.
* `Count`, `LiveByLength` and the rest take liveness as two total predicates, as the code does.
* Number parsing and printing, and variables, are parameters. Numbers are exact.
* Printing and reading durations is a parameter with two laws: a printed duration reads back, and a last part of zero
  adds nothing. Of numerals, made-up facts ask that no fact is named like a number and that nothing ending in `-neg`
  reads as one (`Synthesis.PlainNumerals`), witnesses that the word made up does not (`Witnesses.PlainOthers`).

Where the source states something that does not hold of every input, the model keeps the code and says where it holds:

* A decided comparison keeps its result when further facts arrive if and only if it does not rest on a var
  (`Expr.DecidedForGood`).
* Where both sides of `&` or `|` fail the left error wins, so a comparison that makes no sense, to the left of one not
  read yet, drops a state that is true (`LiveSet.TrueChainDropped`). A true state is dropped on some part of the facts if
  and only if its predicate can fail hard: a senseless comparison with nothing to its left that settles the matter first
  (`Expr.CanFailHard`, `Expr.FailsHardOnSome`, `LiveSet.DroppedExactlyWhen`).
* `internal/engine/strategy/health.go:33-37` says a fact that could not be read never clears a component. One that a
  state marked broken rests on can (`Models.RefusalClears`). Over all components with states so marked, in that order,
  it happens if and only if a state is marked broken, or an unmarked one is declared before one marked healthy
  (`Models.MarksDecide`). The theorems about verdicts ask for the other orders of marks only.
* `internal/engine/strategy/occam_graph.go:15-19` says the decision over the graph is the listing's whenever it can be
  counted. The live chains are the live listing if and only if none repeats a component before its last step and no
  listed root strays, listed alone although something observed follows from it by ways that repeat one
  (`LiveChains.SameExactlyWhenPlain`); how far the numbers part is `LiveChains.CountAgainstListing`,
  and `ComponentCycles.SeesawCounted` is a graph where they do. That no chain repeats is not what equal numbers mean:
  `ComponentCycles.LoopBalances` has two chains counted and two listed, and not the same two. Of decisions that settle
  the matter, that nothing fits or that one scenario does, the graph's is the listing's if and only if nothing repeats and
  nothing strays (`Occam.ConcludesAsListed`); on the same graph, with its one fact read, counting says that nothing fits
  and the listing names a root cause (`LoopRuns.LoopDecidedApart`). Questions agree too where no live chain meets a
  component twice at all (`Occam.DecidesAsListed`).
* A run over a graph asks nothing twice and ends, whatever the graph; but the root cause it names, or that nothing fits,
  is right about the chain that happened if and only if that chain was weighed: a chain of the graph where it can be
  counted, listed where it cannot (`Diagnose.DiagnoseLoop.Run`). A chain that repeats no component before its last step
  always is (`Diagnose.SimpleWeighed`); one that is only listed need not be, and a run then reports that nothing fits
  (`LoopRuns.LoopRunsOut`).
* Every combination of values is tried only once if and only if no count is compared with two numbers that differ in
  their fractions and whose whole parts are at most two apart, too far below zero aside
  (`Consistency.CandidateAttemptsOnce`, `Consistency.TriedOnceExactly`); a half alone does no harm, a half and one do
  (`Consistency.HalfTriedTwice`).
* `internal/engine/strategy/bfs.go:94-97` says a missing fact never drops a component from the walk. Where guards ask for
  facts, and no word on their right is both a var and a fact, that holds: an open guard takes nothing out, and what is
  active on all the facts is active on every part of them (`RootCauses.TargetsKept`). A guard that asks for a
  component's state can drop one, since which of its states comes first depends on what has been read
  (`RootCauses.StateGuardDrops`), and so can one that compares with a word, since a var speaks for the fact that is
  missing (`RootCauses.WordGuardDrops`). Of guards that are one comparison, a missing fact can take a component out if
  and only if the guard is one of these (`RootCauses.ComparisonGuards`).
* The rule built into the graph and the rule read off the facts agree about a redundancy group if and only if the
  clauses that name the child agree (`GraphBuilder.StaticMatchesRuntime`).
* Made-up facts bring about a predicate over own facts, each mentioned once, if and only if each side of an `&` and the
  branch chosen of an `|` can be brought about (`Synthesis.MadeUpFacts`). With supported comparisons that is always so
  when it is to be true; when it is to be false, if and only if something outside every `|` is
  (`Synthesis.SupportedComesTrue`). Where a conjunction mentions facts again, if and only if each comparison that does is
  content with what is bound when its turn comes (`Synthesis.ConjunctionComesTrue`); made false it always is
  (`Synthesis.ConjunctionComesFalse`).

Where a comment and the code part, the model follows the code:

* `internal/simulate/fromscenarios.go:221-224` says a second clause on a fact that conflicts with the first means no
  facts satisfy both; `Synthesis.TwiceMentioned` gives two that some fact satisfies and the one made up does not.
* `internal/facts/store.go:125-126` says the live set drops chains that need a non-default state of an absent
  component; `internal/engine/strategy/liveset.go:85-87` drops those that need its default state.
* `internal/engine/strategy/liveset.go:119-122` says any evaluation error keeps a chain live; lines 102-110 let an error
  that is not a missing fact contradict it.
* `internal/scenarios/graph.go:131-132` says IDs number the sorted chains; they are content digests.

## Model

| member | source | states |
|---|---|---|
| FailureGraph.Next | internal/scenarios/graphdp.go:63-81 | the nested loops list exactly the edges of the walk, in its order |
| FailureGraph.LabelMeans | internal/scenarios/enumerate.go:135-153 | the label is the first emitted that the next state lists, or the first emitted when it lists none; there is one iff something is emitted and the next state lists none or shares one |
| FailureGraph.EdgesMean | internal/scenarios/graphdp.go:63-81 | an edge is listed iff the graph declares it: a link to a resolved component, for every root or this one, and two declared states of which the second answers to the first under that label, at the index it first does; targets are distinct |
| Chains.PathKeyInjective | internal/scenarios/enumerate.go:164-170 | equal chain keys mean equal chains when names are clean |
| Chains.KeySpelt | internal/scenarios/enumerate.go:164-170 | a chain's key spells out each step in turn: component, colon, state, arrow |
| Chains.PathKeyOrderExtends | internal/scenarios/classes.go:13-18 | keys of equally long prefixes are prefix-free, so the lesser prefix makes the lesser chain whatever follows |
| Chains.LessWeak | internal/scenarios/enumerate.go:37-48 | scenario order is a strict weak order: a sound sort key |
| Chains.ScenariosDoNotTie | internal/scenarios/enumerate.go:37-48 | two distinct chains of one graph never tie in scenario order |
| Chains.LessMeans | internal/scenarios/enumerate.go:37-48 | which of two chains comes first: the shorter, the lesser root component, the lesser root state, the lesser key, byte by byte |
| Chains.ScenarioWritten | internal/scenarios/graph.go:174-236 | a scenario is of the graph iff it starts at a declared failure state, passes step by step as the graph declares under the label each step bears, and ends where it shows the facts observed; alone only when nothing observed follows |
| Enumeration.Walk.ExtendChain | internal/scenarios/graph.go:174-201 | the recursion that marks and unmarks the shared visited map finds exactly the paths of the specification and restores the marks |
| Enumeration.Walk.ChainsThrough | internal/scenarios/graph.go:219-236 | each dependent state contributes its longer chains and the chain that stops there |
| Enumeration.ExtendMeans | internal/scenarios/graph.go:174-236 | on any graph, cyclic or not, the walk finds exactly the observed paths no marked or repeated component blocks |
| Enumeration.DropDuplicateChains | internal/scenarios/graph.go:243-255 | keeps the first scenario of every chain key |
| Enumeration.AssignIds | internal/scenarios/enumerate.go:55-67 | names the scenarios by digest, with a counter from the second of a digest on |
| Enumeration.IdsDistinct | internal/scenarios/enumerate.go:50-67 | all assigned IDs differ, whatever digests collide, and a scenario keeps its content's digest |
| Enumeration.NameAt | internal/scenarios/enumerate.go:55-67 | each name is its digest, numbered by how many earlier chains have that digest |
| Enumeration.IdsByContent | internal/scenarios/graphdp.go:283-287 | without a collision every ID is the content-addressed one |
| Enumeration.Expand | internal/scenarios/graph.go:136-166 | returns the sorted, deduplicated listing, named |
| Enumeration.ListingSorted | internal/scenarios/graph.go:131-166 | the listing is strictly increasing in scenario order on every graph |
| Enumeration.ListingMeansAny | internal/scenarios/graph.go:136-255 | on every well-formed graph the listing holds exactly the chains whose components, the last aside, do not repeat, with their labels and observed facts |
| Enumeration.ListingMeans | internal/scenarios/graph.go:136-255 | on acyclic graphs the listing holds exactly the chains of the graph |
| Enumeration.CyclesHideChains | internal/scenarios/graph.go:175-179 | a concrete cyclic graph with a chain that is not listed |
| LiveChains.LiveListingMeans | internal/scenarios/graphdp.go:215-217 | on any graph the live part of the listing holds exactly the live listed chains, strictly sorted |
| LiveChains.ChainListMeans | internal/scenarios/graphdp.go:109-171 | where no live way from a live root comes back to a node, the live chains are listed exactly and strictly sorted, whatever components do |
| LiveChains.TailsCountChains | internal/scenarios/graphdp.go:109-171 | live ways on, root by root, are as many as the live chains, in all and step by step at each component |
| LiveChains.CountAgainstListing | internal/scenarios/graphdp.go:153-155 | on every graph that can be counted: live chains plus listed roots that stray are live listed chains plus live chains that repeat a component before their last step |
| LiveChains.SameExactlyWhenPlain | internal/engine/strategy/occam_graph.go:15-19 | the live chains are the live listing iff none repeats and none strays |
| LiveChains.AcyclicPlain | internal/scenarios/graph.go:174-179 | on acyclic graphs counting meets no cycle, nothing repeats or strays and the two lists are one |
| Counting.Dp.Suffixes | internal/scenarios/graphdp.go:85-107 | on any graph the memo stays sound and busy is restored; positive counts have a way on; where no live way from the root comes back to a node it computes the number of ways on and meets no cycle |
| Counting.TailCountSolves | internal/scenarios/graphdp.go:83-107 | the number of live ways on from a node the root reaches satisfies the recurrence |
| Counting.DoneRanks | internal/scenarios/graphdp.go:85-107 | a memo filled without meeting a cycle ranks all that the root reaches: there is none |
| Counting.ZerosHaveNone | internal/scenarios/graphdp.go:173-186 | in a memo of zeros that nothing leads out of, nothing observed follows, even where cycles cut counts short |
| Counting.RootStandsAlone | internal/scenarios/graphdp.go:173-186 | on any graph, cyclic or not, true iff the root is observed and nothing observed goes on from it |
| Counting.Conserved | internal/scenarios/graphdp.go:156-168 | prefixes times ways on are conserved along a topological order, which is what makes the product count |
| Counting.MeetBalance | internal/scenarios/graphdp.go:131-133 | the ways from a node meet a component there, each once if the node is of it, and further on as those of its successors do |
| Counting.ReachOrder | internal/scenarios/graphdp.go:134-153 | the post-order visit is topological, ends at the root and lists only what it reaches |
| Counting.Tally.FromRoot | internal/scenarios/graphdp.go:109-171 | a cycle is reported iff the root is live and some live way from it comes back to a node; else the root adds its live chains, and to each component the steps they have there |
| Counting.Count | internal/scenarios/graphdp.go:215-227 | on every well-formed graph: ErrCycle iff some live way from a live root comes back to a node; else Live is how many live chains there are and Touch how many steps they have at each component, which is how many pass through it when none comes back to a component; on acyclic graphs these are the live listing's |
| ComponentCycles.SeesawCounted | internal/scenarios/graphdp.go:85-107 | on the seesaw no cycle is met and fourteen chains are counted; fewer are listed |
| ComponentCycles.LoopBalances | internal/scenarios/graph.go:174-179 | concrete: as many chains counted as listed, and not the same ones |
| Layers.FrontierGrows | internal/scenarios/graphdp.go:261-279 | extending the live root paths of one length along live edges gives exactly those of the next, once each |
| Layers.LayerIs | internal/scenarios/graphdp.go:251-260 | on any graph the sorted layer of one length holds exactly the live chains of that length, once each and in order |
| Layers.NextFrontier | internal/scenarios/graphdp.go:261-280 | one iteration builds the next frontier and layer with the listing's steps, labels and observations |
| Layers.LiveByLength | internal/scenarios/graphdp.go:229-281 | feeds the callback the live chains of one length after another, shortest first, sorted and named by content, until it says stop; on a graph with a live way back to a node too, where the callback has to stop it; else over the runs of all live chains |
| Layers.CountChains | internal/scenarios/graphdp.go:289-297 | the number of chains where they can be counted, else the length of the listing; on acyclic graphs both |
| Representatives.ListRepresentatives | internal/scenarios/representative.go:29-47 | computes the representatives of a list of scenarios |
| Representatives.RepresentativesMean | internal/scenarios/representative.go:14-47 | over a strictly sorted list there is one representative a class, the class's least chain, with the size of the class, in scenario order |
| Representatives.RepresentativesTold | internal/scenarios/representative.go:14-47 | every failure state and component that some chain joins have exactly one representative: the least of the chains from the one to the other, with how many there are |
| Representatives.RepresentativesUnique | internal/scenarios/representative.go:14-47 | nothing else has these properties |
| ClassPaths.PathLessExtends | internal/scenarios/classes.go:16-18 | the order of two paths of one root is kept by any common extension |
| ClassPaths.ExtensionLeast | internal/scenarios/classes.go:106-119 | the least path of a set extends to the least of the extended paths |
| ClassPaths.ArriveOne | internal/scenarios/classes.go:97-120 | following one edge adds to the target exactly the extended paths, none of which was there |
| Classes.NodeRep | internal/scenarios/classes.go:97-105 | at its turn a node's entry holds the count and the least of all its paths, so its class gains exactly those |
| Classes.ClassOrder | internal/scenarios/classes.go:56-78 | the walk over nodes dead and alive meets a cycle iff some way from the root comes back to a node; else its order is topological |
| Classes.CollectClasses | internal/scenarios/classes.go:97-123 | after the walk each class holds the count and least chain of all the root's chains, live and dead apart, on every graph whose order the walk found |
| ClassListing.EntryRepresents | internal/scenarios/classes.go:80-96 | what a class entry holds is the representative of its class in its part of the listing |
| ClassListing.ClassesOfGraph | internal/scenarios/classes.go:8-36 | on every well-formed graph: ErrCycle iff some way from a root comes back to a node, live or not; else the two results are exactly the representatives of the live and of the eliminated chains, in order with counts, each named by its content; on acyclic graphs those of the two parts of the listing |
| Parser.TokenParser.ParseOr | internal/expr/parser.go:153-172 | terminates, returns what the loop's function returns and leaves the position just after it |
| Parser.TokenParser.ParsePrimary | internal/expr/parser.go:195-216 | a parenthesised expression or a comparison, or a rejection; never reads past the end |
| Parser.Parse | internal/expr/parser.go:20-32 | over tokens: yields a predicate iff they derive it in the grammar, grouping to the left, and before or |
| Parser.Unambiguous | internal/expr/parser.go:15-18 | the grammar gives a token sequence one meaning |
| Parser.ComparisonReads | internal/expr/parser.go:218-291 | three tokens are a predicate only as a comparison, of the fact after the first dot of the component before it, under the operator each of the six signs stands for |
| Parser.GroupsAs | internal/expr/parser.go:153-193 | between three parts the sign for and binds closer than the one for or, and each groups to the left |
| Parser.WrittenReadsBack | internal/expr/parser.go:153-241 | every predicate whose parts can be written down is recovered from its tokens with parentheses only where rank and left grouping need them |
| Lexer.Tokenize | internal/expr/parser.go:35-68 | yields tokens iff the text is those tokens, each as long as it can be, with only white space around them |
| Lexer.ReadsOneWay | internal/expr/parser.go:35-68 | a text is one sequence of tokens at most |
| Lexer.TokenIs | internal/expr/parser.go:71-121 | a token is one of twelve signs and marks, text in quotes without one, or a word over letters, digits and `_.-/` that begins with neither dot nor slash |
| Lexer.ParseText | internal/expr/parser.go:13-33 | from text: yields a predicate iff the text's tokens derive it in the grammar |
| Lexer.TextReadsBack | internal/expr/parser.go:13-33 | a predicate written out as text, a space before every token, is recovered from it and nothing else is |
| Expr.StrongKleene | internal/expr/eval.go:18-58 | And is the minimum and Or the maximum of false < unknown < true; of two errors the left one is kept |
| Expr.NothingRead | internal/expr/eval.go:60-79 | a fact nobody has read, and a state nobody has derived, leave a comparison open |
| Expr.NumbersCompare | internal/expr/eval.go:117-124 | a number against a number, or what reads as one, is decided as the six operators say |
| Expr.WordsCompare | internal/expr/eval.go:125-145 | a number against a word: the component's fact of that name where one is read, else its var, else open |
| Expr.OthersCompare | internal/expr/eval.go:117-143 | a number stays open against a literal or a fact that is none, and a fact of an unknown kind makes no sense |
| Expr.BooleansCompare | internal/expr/eval.go:94-100 | a boolean is equal or not to a boolean or a word for one, makes no sense under another operator and stays open against another literal |
| Expr.StringsCompare | internal/expr/eval.go:102-115 | strings compare as numbers where both read as one, else as printed text for equality only |
| Expr.StatesCompare | internal/expr/eval.go:66-72 | a state compares as printed text, never as a number |
| Expr.EvalMonotone | internal/expr/eval.go:18-145 | a decided result is the same in every context that knows more, when no right-hand word is both var and fact |
| Expr.EvalNeverHard | internal/expr/eval.go:18-145 | a predicate that cannot fail hard on all facts does not on some of them |
| Expr.FailsHardOnSome | internal/expr/eval.go:18-58 | a predicate that looks no fact up twice fails hard on some part of the facts iff a comparison makes no sense on all of them and nothing to its left settles the matter first |
| Expr.DecidedForGood | internal/expr/eval.go:125-143 | a decided comparison keeps its result whatever is learnt iff it does not rest on a var |
| Expr.HardErrorHidesTruth | internal/expr/eval.go:42-43 | concrete: a senseless comparison to the left contradicts what the full facts make true, to the right it does no harm |
| Facts.Store.Append | internal/facts/store.go:11-14 | the store's log grows by one record of one component |
| Facts.Store.Latest | internal/facts/store.go:18-31 | the last record of the key, none when there is none |
| Facts.LatestMeans | internal/facts/store.go:16-31 | the latest record is the one after which the key does not come; there is none iff the key never comes |
| Facts.Store.LookupValue | internal/facts/store.go:66-75 | the value every predicate reads: the latest record's, none when there is none or it holds none |
| Facts.Store.IsAbsent | internal/facts/store.go:127-143 | true iff some record is not-found and none holds a value |
| Facts.Store.Unreadable | internal/facts/store.go:78-92 | exactly the keys whose latest record is forbidden or transient, with which |
| Facts.AppendedLatest | internal/facts/store.go:11-31 | an append is the latest record of its key and changes no other pair |
| Models.ComponentVerdict | internal/engine/strategy/health.go:39-78 | the loop computes the verdict: absent, then the deciding state's mark, then the rules, one false rule outweighing unread ones |
| Models.VerdictMeans | internal/engine/strategy/health.go:39-78 | Unhealthy iff probed and not there, or the first state that holds is marked broken, or it is unmarked or none holds and some effective rule is false, whatever the others are; Healthy iff not absent and that state is marked healthy, or is unmarked and every rule is true, with some value read where there is none |
| Models.RulesMean | internal/model/healthy.go:34-43 | a component's own rules hold for it, and its type's where it has none of its own or adds to them |
| Models.CtxReads | internal/engine/strategy/liveset.go:116-135 | predicates read the value of the latest record of any pair, the model's vars, and no derived state |
| Models.SatisfiedGroup | internal/engine/strategy/redundancy.go:22-42 | true iff some clause over the child asks for members and has that many proven healthy |
| Models.GroupMeans | internal/engine/strategy/redundancy.go:22-42 | a component is held up iff some clause over the child asks for no more members than it has places taken by ones proven healthy |
| Models.RedundancyCovered | internal/engine/strategy/redundancy.go:47-60 | true iff something depends on the component and everything that does is held up by a group |
| Models.CoveredMeans | internal/engine/strategy/redundancy.go:47-60 | covered iff some component of the order names it and every one that does has such a clause |
| Models.HealthyOnAllFacts | internal/engine/strategy/health.go:56-77 | a component proven healthy by some of the facts is well in the world, by a state marked healthy or by every rule, where its marks are safe |
| Models.UnreadNeverClears | internal/engine/strategy/health.go:33-78 | recording a forbidden or transient fact never turns a verdict into Healthy, where the marks are safe |
| Models.MarksDecide | internal/engine/strategy/health.go:33-37 | for every order of marks: some component so marked is cleared by a fact that could not be read iff one mark says broken or an unmarked state comes before one marked healthy |
| Models.RefusalClears | internal/model/resolve_type.go:31-33 | concrete: an unhealthy component in a state of the model's own is Healthy once the fact under that state is refused |
| Models.MarkedStatesAreNotMonotone | internal/engine/strategy/health.go:152-167 | concrete: with verdict-carrying states a later fact turns Healthy into Unhealthy |
| LiveSet.IsLive | internal/engine/strategy/liveset.go:41-56 | one pass over the chain decides as the node and edge predicates do |
| LiveSet.EliminatedMeans | internal/engine/strategy/liveset.go:41-114 | a chain is eliminated iff a step is ruled out, by an absent component's default state or a first state of that name whose predicate is false or makes no sense, or a group holds between two of its steps |
| LiveSet.FilterLive | internal/engine/strategy/liveset.go:25-33 | keeps exactly the scenarios live under the graph's liveness, in order |
| LiveSet.Remembered.Node | internal/engine/strategy/occam_graph.go:90-98 | the remembered node answer is the one worked out from the facts, and only that entry is added |
| LiveSet.Remembered.Edge | internal/engine/strategy/occam_graph.go:99-111 | the same for a passage between two components |
| LiveSet.TrueChainStaysLive | internal/engine/strategy/liveset.go:41-114 | whatever part of the facts is known, a chain whose states hold in the world, by predicates that cannot fail hard, and whose groups have too few members well in the world to stop it, is live |
| LiveSet.DroppedExactlyWhen | internal/engine/strategy/liveset.go:94-114 | a state true in the world is contradicted by some part of the facts iff its predicate can fail hard |
| LiveSet.TrueChainDropped | internal/engine/strategy/liveset.go:102-110 | concrete: a chain that happened is dropped by true facts for a senseless comparison to the left, and kept when it stands to the right |
| ProbeChoice.PickMeans | internal/engine/strategy/occam.go:122-193 | the probe is for the unverified step nearest the symptom and an unrecorded fact of its type; there is none iff every step is verified |
| ProbeChoice.UnreadMeans | internal/facts/store.go:18-31 | a pair is unread iff no record has its key |
| ProbeChoice.NeededMeans | internal/engine/strategy/occam.go:178-238 | a step is read by exactly the facts of its type it rests on, those it shows or those its first state of that name compares, in order; by all of the type's when there are none |
| ProbeChoice.FactRefsMean | internal/engine/strategy/occam.go:240-262 | the names a predicate speaks of: the own fact on a comparison's left, and a word on its right |
| ProbeChoice.PickIs | internal/engine/strategy/occam.go:122-193 | the probe is, to the letter, the least unread fact of the step nearest the symptom that has one, with its component's provider and type; none iff no step has one |
| Occam.LiveTouchCounts | internal/engine/strategy/occam.go:106-119 | each live scenario counts once for each component it touches |
| Occam.SuggestByListing | internal/engine/strategy/occam.go:30-88 | the listing's decision: filter, price, sort, probe, and every ID on the probe's component in rank order |
| Occam.OrderedSplits | internal/engine/strategy/occam_graph.go:15-19 | since length is the first key, ranking the whole list ranks the first layer and then the rest |
| Occam.OccamOnGraph | internal/engine/strategy/occam_graph.go:20-82 | on every well-formed graph: nothing iff counting meets a cycle; else counting and two layer passes reach the decision over the live chains priced by their steps, which is the listing's where no live chain meets a component twice, with the first at most ten of the IDs |
| Occam.FirstNamedIs | internal/engine/strategy/occam_graph.go:12-13 | a question over the graph names the first ten, or all there are |
| Occam.PricedByTouch | internal/engine/strategy/occam.go:35-60 | a decision priced by how many live scenarios touch a component is the listing's |
| Occam.ConcludesAsListed | internal/engine/strategy/occam_graph.go:15-19 | on a graph that can be counted: when the graph's decision or the listing's settles the matter they agree iff no live chain repeats a component before its last step and no listed root strays |
| Occam.DecidesAsListed | internal/engine/strategy/occam_graph.go:15-19 | where besides no live chain meets a component twice every decision agrees, questions included |
| LoopRuns.LoopDecidedApart | internal/engine/strategy/occam_graph.go:15-19 | concrete: a graph that can be counted on which the graph's decision is that nothing fits and the listing's names a root cause |
| Occam.DecisionMeans | internal/engine/strategy/occam.go:30-104 | stuck iff nothing is live, done iff one scenario is; else the one asked about is the shortest, of those one a suspicion hints at, of those the one whose probe's component most live scenarios touch, of those the first in scenario order; named are exactly the live scenarios on that component, the better first |
| Occam.PricedMeans | internal/engine/strategy/occam_graph.go:20-82 | the same of a decision priced by steps, as over a graph, with the number of them |
| Occam.SuggestProbe | internal/engine/strategy/occam.go:23-33 | from scenarios, or from a graph that cannot be counted, the decision over the live part of the listing; from one that can, the decision over its live chains priced by their steps; what it asks for nobody has recorded; and over such a graph, where it or the listing's decision settles the matter, it is the listing's iff nothing repeats and nothing strays |
| Diagnose.Record | internal/providersupport/probe/dispatch/dispatch.go:116-138 | an answer appends one fact of its status, any other error nothing |
| Diagnose.AnswerMeans | internal/providersupport/probe/dispatch/dispatch.go:116-138 | afterwards the value is known iff the answer gave it, the pair is unreadable iff it was refused or to be tried again, and the component is absent iff no value of it is known and some record or this answer says so |
| Diagnose.OneFewer | internal/cli/diagnose.go:209-219 | recording an answer takes exactly the probed pair off those never collected |
| Diagnose.SimpleWeighed | internal/cli/diagnose.go:185-187 | a chain that repeats no component before its last step is weighed over a graph whatever becomes known |
| Diagnose.AcyclicWeighed | internal/cli/diagnose.go:185-187 | over an acyclic graph exactly the listed chains are weighed |
| Traversal.FirstUncollectedFact | internal/engine/strategy/bfs.go:138-171 | the first fact of the type, in name order, that nothing is recorded for; none only when all are recorded |
| Traversal.SuggestByWalk | internal/engine/strategy/bfs.go:24-44 | asks for the first unread fact in breadth-first order; with none left in play names what the root-cause rule names, one that no other candidate explains whenever there is such a one, and nothing iff nothing in play is seen broken |
| Traversal.AsksWhileUnread | internal/engine/strategy/bfs.go:33-38 | the walk asks iff something in play is unread, and then for an unrecorded fact of a component in play |
| Traversal.FailedStateMeans | internal/engine/strategy/standalone.go:43-66 | the state reported is the first but the default that holds, "unhealthy" when there is none |
| Diagnose.DiagnoseLoop.Suggest | internal/engine/strategy/autoselect.go:8-13 | scenarios or a graph are decided over, otherwise components are walked; either way the question is for a fact not recorded or the report is the decision's |
| Diagnose.DiagnoseLoop.Step | internal/cli/diagnose.go:183-221 | one iteration reports what was decided and changes nothing, or records one answer to a question nothing was recorded for; over any scenarios or well-formed graph |
| Diagnose.DiagnoseLoop.Run | internal/cli/diagnose.go:135-152 | under either strategy, over any scenarios or well-formed graph, a run asks about no pair twice, ends within the uncollected pairs and knows in the end what was known and the answers in order; in a world its answers are true of the chain that happened stays live, and a report that settles the matter names it iff it was weighed |
| LoopRuns.LoopRunsOut | internal/cli/diagnose.go:135-152 | concrete: every run over one such graph reports that nothing fits |
| LoopRuns.NeverWeighed | internal/scenarios/persist.go:158-171 | while the chain that happened is live and listed, and was never weighed |
| RootCauses.Derive | internal/state/derive.go:34-86 | derives each component's state in order, each seeing the ones before |
| RootCauses.DerivedMeans | internal/state/derive.go:34-86 | a component's state is the first whose predicate holds given the states of the components before it, "unknown" when none does |
| RootCauses.BfsWalk | internal/engine/strategy/bfs.go:52-81 | lists, once each and in breadth-first order, exactly what the entry reaches over active edges |
| RootCauses.TargetsMean | internal/engine/strategy/bfs.go:94-113 | a dependency is active iff some clause names it whose guard the facts do not decide false |
| RootCauses.TargetsKept | internal/engine/strategy/bfs.go:94-97 | where guards ask for facts, with no clashing word, whatever is active on all the facts is active on every part of them |
| RootCauses.UnreadTargets | internal/engine/plan.go:252-254 | with no value read a dependency is active iff some clause names it whose guard the states do not make false by themselves |
| RootCauses.StateGuardDrops | internal/engine/strategy/bfs.go:94-97 | a guard that asks whether a state is one, or is not, takes its clause out in some model for a fact nobody has read |
| RootCauses.WordGuardDrops | internal/engine/strategy/bfs.go:94-97 | so does one that compares a fact with another word that reads as no number |
| RootCauses.ComparisonGuards | internal/engine/strategy/bfs.go:94-97 | of guards that are one comparison, exactly those that ask whether a state is one, or is not, and those with such a word can |
| Paths.BfsEnumerate | internal/engine/plan.go:219-250 | exactly one path for each component other than the entry that it reaches over active edges, a real walk that no other is shorter than, in breadth-first order |
| Paths.WalksAgree | internal/engine/strategy/bfs.go:46-51 | marking when queued and marking when taken off the queue visit the same components in the same order |
| RootCauses.ActiveDeps | internal/engine/strategy/rootcause.go:47-67 | the dependencies in play over active edges and through no group that holds |
| RootCauses.PassagesMean | internal/engine/strategy/rootcause.go:47-67 | a failure can pass now iff the one below is in play, named in a clause not taken out, and no group holds against it |
| RootCauses.CandidatesMean | internal/engine/strategy/rootcause.go:37-42 | a candidate is in play, unhealthy, and depended on by nothing, or by something no group of its own holds up |
| RootCauses.CausesMean | internal/engine/strategy/rootcause.go:69-89 | a cause is a candidate from which no passages lead to another through nothing proven healthy |
| RootCauses.Casualty | internal/engine/strategy/rootcause.go:69-89 | the stack search finds a culprit iff a walk leads to another candidate through nothing proven healthy |
| RootCauses.Depths | internal/engine/strategy/rootcause.go:91-111 | the fixpoint ends on every graph, cycles included, settled within the bound and with every depth that of a walk |
| RootCauses.DepthsAreLongest | internal/engine/strategy/rootcause.go:91-92 | where passages descend, settled depths are those of the longest walks |
| RootCauses.Deepest | internal/engine/strategy/rootcause.go:113-121 | the deepest kept candidate, the earlier in model order among equals, "" when none is kept |
| RootCauses.RootCause | internal/engine/strategy/rootcause.go:6-128 | "" iff nothing in play is seen broken and uncovered; else such a component, one that no other candidate explains whenever there is such a one, cycles or not; and where passages descend the one of these with the longest longest-walk, which each of them has, ties by model order |
| RootCauses.AcyclicPassages | internal/engine/strategy/rootcause.go:103-104 | in an acyclic model passages descend, whatever the facts |
| DepGraph.Graph.constructor | internal/model/graph.go:17-46 | adjacency is each component's dependencies in order, and a name's in-degree how often the components name it |
| DepGraph.DegreeMeans | internal/model/graph.go:52-59 | an in-degree is positive iff something depends on the name |
| DepGraph.Graph.EntryPoint | internal/model/graph.go:52-59 | the first declared component nothing depends on |
| DepGraph.AcyclicHasEntry | internal/model/graph.go:48-51 | a non-empty acyclic model has an entry point |
| DepGraph.Search.Dfs | internal/model/graph.go:80-100 | the coloured search finds a cycle or blackens everything the node leads to, keeping grey the stack and black a post-order |
| DepGraph.ReconstructCycle | internal/model/graph.go:115-132 | back along the parents and reversed in place: the stack from the start of the cycle, closed |
| DepGraph.DetectCycle | internal/model/graph.go:66-110 | empty iff dependencies are acyclic, otherwise a closed walk of real dependencies |
| GraphBuilder.InverseDeps | internal/scenarios/enumerate.go:73-95 | exactly the names someone depends on, each with its dependents sorted |
| GraphBuilder.Closure.Visit | internal/scenarios/enumerate.go:102-119 | the memoised walk ends on every model and on acyclic ones collects exactly what the name depends on |
| GraphBuilder.DependencyClosure | internal/scenarios/enumerate.go:97-124 | on acyclic models the closure is exact transitive dependency |
| GraphBuilder.FailurePropagates | internal/scenarios/graph.go:106-129 | true iff some clause naming the child is plain or loses more members than it can spare |
| GraphBuilder.BuildLink | internal/scenarios/graph.go:84-99 | plain iff every root gets through, else the sorted list of exactly those that do |
| GraphBuilder.BuildGraph | internal/scenarios/graph.go:55-80 | the graph has the model's components with their failure states, observed facts and links |
| GraphBuilder.AcyclicGraph | internal/scenarios/graph.go:55-80 | an acyclic model gives an acyclic graph, so counting and classes never report a cycle on it |
| CleanModels.CountAndGroup | internal/model/validate.go:492-504 | a model in which the cycle check finds nothing is counted and grouped without an error under every liveness, to the listing's numbers and representatives |
| GraphBuilder.WellFormedGraph | internal/scenarios/graph.go:55-80 | a model with fit names gives a well-formed graph |
| GraphBuilder.NodesAreFailures | internal/scenarios/graph.go:68-73 | no node of the graph is a default or healthy state |
| GraphBuilder.NodesMean | internal/scenarios/graph.go:66-73 | a node is in the graph iff its component's type resolved and declares a state of that name neither default nor marked healthy |
| GraphBuilder.NodesEmit | internal/scenarios/graph.go:67-72 | with fit names it emits the type's failure modes of that name, is triggered as declared, and its component observes the type's facts |
| GraphBuilder.LinksMean | internal/scenarios/graph.go:75-77 | a component's links lead to exactly those that name it, in order, each once |
| GraphBuilder.PropagatesMean | internal/scenarios/graph.go:101-129 | on an exact closure a failure gets through iff some clause naming the child is plain, or spares fewer members than it needs once the root and whatever leads to it by dependencies are down |
| GraphBuilder.LinkCarriesPropagated | internal/scenarios/graph.go:82-99 | a link carries a root iff its failure gets through the dependency |
| GraphBuilder.StaticMatchesRuntime | internal/engine/strategy/redundancy.go:22-42 | on facts that show exactly a root's damage the runtime rule stops the failure where the graph was built to, iff the clauses naming the child agree |
| Consistency.Reader.Walk | internal/model/consistency.go:231-281 | the walk adds to each fact exactly the constants and literals the predicate compares it with |
| Consistency.ConstantsMean | internal/model/consistency.go:241-289 | a fact's constants and words are those some comparison of a rule or state gives it, and it is relative iff one is with a fact |
| Consistency.TriesMean | internal/model/consistency.go:291-331 | what is tried: both booleans, the words in order, and each constant with its neighbours one step off and not below zero, rising, rounded down for a count |
| Consistency.FindCandidates | internal/model/consistency.go:231-332 | every fact with something to try gets exactly its values, none twice iff it is no count or no two of its constants are close and differ in their fractions |
| Consistency.Representative | internal/model/consistency.go:291-330 | every count, boolean or named string looks to all comparisons like one of the values tried |
| Consistency.TriesAreEnough | internal/model/consistency.go:50-56 | whatever values the facts have, some tried assignment gives the same state and health |
| Consistency.CtxUnderReads | internal/model/consistency.go:67-69 | what is assumed of the component's facts is known and nothing else is, beside its vars |
| Consistency.HealthMeans | internal/model/consistency.go:184-224 | the state is the first that holds; undecided iff it is unmarked and a rule is open; healthy by its mark, else by every rule |
| Consistency.DisagreesMeans | internal/model/consistency.go:73-78 | a decided health disagrees iff it is unhealthy in the default state, in one marked healthy or outside all, or healthy in another |
| Consistency.CombinationReached | internal/model/consistency.go:166-181 | reading the index in mixed radix reaches every combination |
| Consistency.CombinationOnce | internal/model/consistency.go:166-181 | ... and, where no value is listed twice, each only once |
| Consistency.TriedOnceExactly | internal/model/consistency.go:284-330 | a fact is given no value twice iff it is no count, or no two of its constants differ in their fractions and have whole parts at most two apart, too far below zero aside |
| Consistency.WholeTriedOnce | internal/model/consistency.go:284-330 | compared with whole numbers only, a fact is given no value twice |
| Consistency.HalfTriedTwice | internal/model/consistency.go:307-314 | concrete: a count compared with a half is given each value once, and one compared with a half and with one is given a value twice |
| Consistency.CandidateAttemptsOnce | internal/model/consistency.go:152-182 | where all combinations fit no assignment is tried twice iff no count has two such constants |
| Consistency.AttemptsMean | internal/model/consistency.go:148-182 | as many are tried as there are combinations, at most 4096, each giving every fact one of its values |
| Consistency.EachAssignment | internal/model/consistency.go:148-182 | feeds the callback the combinations, or that many drawn ones past the bound, until it says stop |
| Consistency.HealthStateDisagreements | internal/model/consistency.go:50-94 | every pair reported is shown by its own facts, once; by state, the healthy first; where all combinations fit and like is compared with like, a pair is reported iff some facts the component may have produce it |
| Witnesses.Witness | internal/model/consistency.go:96-146 | returns the first of the assignments tried that shows the state, healthy or not as asked, and none only when none does; where all combinations fit and like is compared with like, some is returned iff some facts the component may have, words the type never names included, show it |
| Witnesses.PlainTriesAreEnough | internal/model/consistency.go:106-129 | the reordered values with zero and one made-up word miss nothing the facts may be |
| Witnesses.Reorder | internal/model/consistency.go:113-135 | each fact's values as they were, with the made-up word last, and zero first, or last where facts are compared with one another |
| Witnesses.PlainlyMeans | internal/model/consistency.go:106-134 | the word made up is `other` with the fewest endings that make it new; zero is first, or last where facts are compared, and the other numbers keep their order |
| Witnesses.PlainAttemptsOnce | internal/model/consistency.go:113-145 | the reordered search tries no assignment twice iff no count has two such constants whose numbers meet above zero |
| Impacts.ImpactOf | internal/scenarios/impact.go:50-145 | rejects what is no component or failure state; else reports exactly the components the failure reaches, each once, with the states it is driven into and a shortest route, and exactly the groups that keep it from one it does not reach |
| Impacts.ReportMeans | internal/scenarios/impact.go:121-143 | affected come by length of path, then name; blocked are exactly the dependents not reached beside each member reached whose group does not give way to the component, by dependent, then member |
| Impacts.HopDeclared | internal/scenarios/impact.go:84-104 | the failure hops exactly where the graph declares that it passes, and never back to where it began |
| Impacts.NoneShorter | internal/scenarios/impact.go:84-113 | when the queue is empty every route's end has been found, by a route no longer |
| Impacts.NoteGrows | internal/scenarios/impact.go:105-110 | the first route noted to a component stays the shortest, whichever of its states are found later |
| Impacts.Spread.PathTo | internal/scenarios/impact.go:147-163 | back along the parents and turned round: the components of the node's route |
| Impacts.ImpactMeetsChains | internal/scenarios/impact.go:12-15 | on acyclic graphs a component with facts to observe is reported iff a listed chain leads to it from a state assumed, and its path is the components of a shortest such chain |
| Synthesis.Writer.AssignFromNode | internal/simulate/fromscenarios.go:149-187 | writes the shared bindings as the walk's function says, scratch bindings for the branches of an Or |
| Synthesis.DeriveSatisfyingAssignments | internal/simulate/fromscenarios.go:141-147 | the bindings, or the error iff the walk met a state |
| Synthesis.CmpWorks | internal/simulate/satisfy.go:10-112 | the value or pair of values made up for a comparison makes it evaluate as wanted iff operator and literal are supported |
| Synthesis.MadeUpValue | internal/simulate/satisfy.go:10-88 | the value is the literal itself where it compares with itself as wanted, else one below where less is wanted and one above otherwise, the other boolean, or the word with its ending; none for a word or boolean under another operator |
| Synthesis.MadeUpPair | internal/simulate/satisfy.go:31-44 | for two facts: equal ones, or the first or the second ahead |
| Synthesis.WalksAlone | internal/simulate/fromscenarios.go:161-187 | beside bindings of other facts the walk binds what it binds alone, and fails iff a state is needed, in every branch of an Or |
| Synthesis.MadeUpFacts | internal/simulate/fromscenarios.go:121-147 | on exactly the facts made up the predicate evaluates as wanted iff both sides of an And and the chosen branch of an Or can be made to |
| Synthesis.SupportedComesTrue | internal/simulate/fromscenarios.go:121-147 | with supported comparisons it is always made true, unbound branches included, and made false iff something outside every Or is |
| Synthesis.ConjunctionComesTrue | internal/simulate/fromscenarios.go:141-187 | a conjunction of supported comparisons, facts mentioned as often as one likes, is made true iff every comparison that mentions a fact again is content with what is bound when its turn comes |
| Synthesis.ConjunctionComesFalse | internal/simulate/fromscenarios.go:141-187 | such a conjunction is always made false |
| Synthesis.LiteralsComeTrue | internal/simulate/fromscenarios.go:221-228 | between facts and literals: iff the value bound by a fact's first comparison satisfies every later one on it |
| Synthesis.TwiceMentioned | internal/simulate/fromscenarios.go:221-228 | concrete: two satisfiable clauses on one fact of which the first alone is met |
| Argv.BuildArgs | internal/providersupport/probe/runner.go:191-241 | refused iff a key is on both sides or a reserved one has a value; else command, name, fact, type, window with derivation, and the given keys in order |
| Argv.ArgsInOrder | internal/providersupport/probe/runner.go:226-240 | argument by argument: `probe`, resource or component, fact, type, window with derivation, then the keys that have a value, sorted, each with it |
| Argv.ShortIs | internal/providersupport/probe/runner.go:179-189 | what a duration is shortened to: no zero seconds after minutes, then no zero minutes after hours, and nothing else |
| Argv.ShortReadsBack | internal/providersupport/probe/runner.go:179-189 | a shortened duration reads as the duration |
| Argv.ParseProbeRequest | sdk/provider/main.go:75-114 | reads pair after pair as the reading function does, a last flag without a value left alone |
| Argv.ArrivesWhole | internal/providersupport/probe/runner.go:191-241 | every accepted command is read back: name, fact, type, window and derivation when both are set, and exactly the keys with a value |
| Argv.LastValueWins | sdk/provider/main.go:81-112 | on any command line each field holds the last value given for its flag |
| Argv.OthersKept | sdk/provider/main.go:105-112 | any other flag is kept under its own name with its last value |
| Argv.RefusedOnlyFor | sdk/provider/main.go:83-100 | refused iff something that is no flag stands where one belongs, or a window is no duration above zero |

## Left out

- Integer width: counts are unbounded, Go's `int` is not.
- Occam.OccamOnGraph: the per-decision memo is modelled apart (`LiveSet.Remembered`); the counts and layers take the predicates it computes.
- Occam.DecidesAsListed: says when a question over the graph is the listing's, not that it is only then.
- Counting.ReachOrder: shares one post-order walker with the class walk, so it also keeps a busy set; the counting one does not need it, since suffixes have already met any cycle.
- Enumeration.Expand: the digest is a parameter and an ID is a pair of digest and counter instead of the hex text.
- Diagnose.DiagnoseLoop.Run: operator prompts for generic components, the read-only gate and the deadline are one parameter that may end the loop; wall-clock time and what is printed are not modelled.
- RootCauses.ComparisonGuards: of guards that join several comparisons only that they drop nothing where none of these is among them (`RootCauses.TargetsKept`), and what they drop with nothing read.
- LiveSet.TrueChainStaysLive: a chain that happened consists of failure states of the world, its group members' marks are safe, and no word is both var and fact.
- LiveSet.DroppedExactlyWhen: for predicates over one component that look no fact up twice.
- Consistency.HealthStateDisagreements: nothing is claimed past the bound, for facts compared with other facts or vars, or for decimal facts, where values closer than the step can be missed.
- Witnesses.Witness: the same limits; a word the type does not name that reads as a number is not among the facts a component may have.
- `RedundancyDegraded`, `CannotRuleOut`.
- Lexer.ParseText: which characters are letters, digits and white space, and the reading of a value from its token, are parameters.
- Type resolution: components arrive with their resolved type; a type's facts arrive as a sorted list.
- Absent inputs: a missing model, registry or store, which the code answers early, is not modelled.
- Impacts.ImpactOf: the guards reported as conditions are not modelled; on graphs with a component cycle the report is by reachability alone and nothing is said of chains.
- Synthesis.MadeUpFacts: a predicate with an `|` in it mentions no fact twice; conjunctions may (`Synthesis.ConjunctionComesTrue`).
- Synthesis.DeriveSatisfyingAssignments: the run over every scenario that uses the made-up facts is not modelled.
- Argv.BuildArgs: which of several keys given twice an error names is left open.
- What a simulation concludes from its paths.
- Reading and writing files, incidents, installing providers, the operator's command line and the network.
