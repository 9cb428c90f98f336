# Plant-safety decision platform: a Dafny model of its deterministic core

The repository is an industrial-safety decision platform. A Python backend scores the risk of each
zone tick by tick, keeps an operational knowledge graph, projects incidents from historical ones and
serves replays; a React frontend lays the graph out, derives timelines and lets an operator scrub
through the past. This project models the parts of it that decide something by a nontrivial
computation, and proves what those computations promise, for all inputs, all runs and all reachable
states.

| module | what it models |
|---|---|
| `KnowledgeGraph`, `PathSearch`, `BreadthFirstOrder`, `Subgraph` | graph search: shortest path with a parent map, and the depth- and node-bounded expansion |
| `DependencyLevels` | the memoised levelling of the action queue with its cycle guard |
| `QueueSearch`, `RadialLayout` | the radial graph layout: queue search, rings, sorted placement |
| `Trajectories`, `Forecast`, `Confidence`, `EarlyWarning`, `OperationalForesight` | the foresight pipeline, stage by stage and as a whole |
| `Tiering`, `Fusion`, `Scheduler`, `RiskPipeline` | the per-tick risk engine: agents, fusion, hysteresis, and their composition |
| `ScenarioTicks`, `Timeline`, `Replay`, `TimeMachine` | the tick loop and what it persists, the two event detectors over it, replay building, and the Time Machine cursor |
| `Oscillation`, `Episodes` | run-scanning statistics over tier histories |
| `CompositeIds`, `Recommendations` | printers against parsers, and the Python mirror against the TypeScript original |
| `Common`, `Measures`, `StableSort`, `Reachability`, `Tiers` | what the others share: sequences, durations and weighted means, a stable sort, hop-bounded reachability, the four tiers |

Code that changes state in the source is imperative here and proved against a specification: loops
are methods with invariants, `levelById`/`visiting` and the replay provider's state cells are classes.
Each specification function then has lemmas that say what it means. Pure code is functions and lemmas.
Where a result is stated through functions that the code itself uses, a lemma named `...InFields` or
`...Meaning` says it again in the fields of the inputs and outputs alone.

Reading conventions: `Within(succ, root, k)` is the set of nodes at most `k` hops from `root`;
`Connects` is a walk through the (edge, neighbour) pairs that `get_neighbors` delivers, because some
edges are stored reversed; timestamps are integers counting microseconds; probabilities, scores and
distances are exact reals.

## What turned out not to hold

Each item names the lemma with the exact condition and, after it, the one with a concrete input.

- A capped subgraph can contain edges to nodes it does not contain, because edges are appended before
  the cap is tested. It is closed exactly when the whole uncapped search fits the cap, or the cap is
  met just where some node's expansion ends: `Subgraph.ClosedExactlyWhen`,
  `Subgraph.CapLeavesDanglingEdge`.
- The comment on the cycle guard says a cyclic action is treated as level 0. An action that depends on
  itself lands on level 1, and level 0 is then empty. Only level 0 can ever be missing: the levels run
  0, 1, 2, ... exactly when some action has no present dependency. A level is the longest chain exactly
  where no cycle can be reached, and dependencies all sit lower exactly when nothing is cyclic:
  `DependencyLevels.ConsecutiveExactlyWhen`, `DependencyLevels.ExactExactlyWhereFree`,
  `DependencyLevels.BuildDependencyLevels`, `DependencyLevels.SelfDependencyLandsOnLevelOne`.
- `_windowed_distance` documents that aligning at a candidate's first step compares nothing. It
  compares one step; nothing is compared exactly when the current window is empty:
  `Trajectories.WindowedDistance`, `Trajectories.FirstStepIsCompared`.
- `compute_confidence` maps a standard deviation of 100 to no agreement. On the 0..100 scale the
  standard deviation never exceeds 50, so agreement is never below one half, and one half is reached:
  `Confidence.AgreementBounds`, `Confidence.AgreementFloorReached`.
- Persisted rows are keyed by zone and time, so a repeated tick time can hide a tier change from the
  persisted chain. Every engine's chain survives exactly when only the first tick time repeats; the
  failing runs use the configuration in use. Two adjoining sensor events of a zone and gas both sample
  their common boundary (src/domain/simulation/generator.py:57-75), so the input is one the builder can
  produce: `ScenarioTicks.ChainExactlyWhen`, `ScenarioTicks.BoundaryTickHidesChange`.
- Every execution restarts from normal over the same table. What successive executions leave there forms
  one chain exactly when each part is chained and starts where the one before it ended; when all tick
  times are distinct, that is when every execution but the last ended at normal:
  `ScenarioTicks.ExecutionsChainExactlyWhen`, `ScenarioTicks.DistinctTimesChainExactlyWhen`,
  `ScenarioTicks.RestartBreaksChain`.
- The two event detectors are said to agree only in spirit. On tiers they agree after the first tick
  exactly when the window is chained, so for every engine exactly when only the first tick time
  repeats: `Timeline.TiersAgreeExactlyWhen`, `Timeline.AlwaysAgreeExactlyWhen`,
  `Timeline.BoundaryTickMisreported`. On bonuses they agree exactly when no bonus tick follows a bonus
  tick, since the client flags onsets only: `Timeline.BonusesAgreeExactlyWhen`,
  `Timeline.RepeatedBonusIsNotReported`.
- Pressing Next while a replay is still loading leaves the cursor at -1, and it stays off the axis when
  the data arrives: `TimeMachine.InRangeAfterLoadExactlyWhen`, `TimeMachine.NextWhileLoading`.
- Hysteresis is not monotone in the starting tier. At a constant score of 60 an elevated zone stays
  elevated while a critical zone falls to watch: `Tiering.SettledOrder`,
  `Tiering.CriticalFallsPastElevated`.
- The fusion configuration accepts negative weights and a negative bonus. For every configuration that
  can be constructed: the base is a mean of the risks exactly without negative weights; the score is at
  least that base exactly without negative weights and with a bonus that is not negative or cannot
  apply; the score is monotone in the risks exactly without negative weights and with a harmless
  bonus, or when it is always zero; the score stays on the 0..100 scale exactly without negative weights
  and with a bonus that never turns the sign, or when it is always zero: `Fusion.MeanExactlyWhen`,
  `Fusion.AtLeastMeanExactlyWhen`, `Fusion.MonotoneExactlyWhen`, `Fusion.ScaleExactlyWhen`,
  `Fusion.NegativeWeightInstance`.
- A composite id round-trips exactly when no part contains the separator: `CompositeIds.PairRoundTrip`,
  `CompositeIds.TripleRoundTrip`, `CompositeIds.SeparatorInPartConfuses`.

## Model

| member | source | states |
|---|---|---|
| `KnowledgeGraph.ConnectsWithin` | src/knowledge_graph/service.py:1183-1221 | an edge list that connects two nodes puts the target within that many hops |
| `KnowledgeGraph.WithinConnects` | src/knowledge_graph/service.py:1183-1221 | conversely, a node within k hops is connected by some list of at most k edges |
| `KnowledgeGraph.ConnectsIsRoute` | src/knowledge_graph/service.py:1201-1215 | edges connect two nodes if and only if there are entities, one per edge, each delivered with its edge for the kind and id of the one before, the last of the target's kind and id |
| `PathSearch.Unwind` | src/knowledge_graph/service.py:1208-1215 | following parents always terminates and yields a real walk from start to goal, no longer than any distance at which the goal is known to lie |
| `PathSearch.RecordParent` | src/knowledge_graph/service.py:1203-1206 | recording a new neighbour keeps every parent a real hop that is one step closer to the start |
| `PathSearch.ExpandNode` | src/knowledge_graph/service.py:1201-1216 | one node's neighbours: exactly the unvisited ones are added and queued, or the goal has been reached |
| `PathSearch.ExpandLayer` | src/knowledge_graph/service.py:1199-1217 | one round turns "all within d hops visited" into "all within d + 1 hops visited", with the new layer as the next frontier |
| `PathSearch.FirstFound` | src/knowledge_graph/service.py:1198-1217 | a path found in the first round that reaches the target is a shortest one |
| `PathSearch.GetPath` | src/knowledge_graph/service.py:1183-1221 | the result is a real path of at most `max_depth` edges and no connecting edge list is shorter; None is returned exactly when every connecting edge list is longer than the bound; the empty path exactly for a node to itself; with a bound of at least one, an entity of the target's kind and id delivered for the source gives a path of at most one edge |
| `BreadthFirstOrder.OrderReach` | src/knowledge_graph/service.py:1121-1136 | the discovery order of an uncapped search of d levels is duplicate-free and is exactly the set within d hops |
| `BreadthFirstOrder.ClosestFirst` | src/knowledge_graph/service.py:1121-1136 | no node is discovered before one that is reachable in fewer hops |
| `Subgraph.ExpandNode` | src/knowledge_graph/service.py:1128-1135 | all the node's edges are appended; nodes and next frontier grow by exactly the new keys that fit the cap, in order; each key keeps the entity delivered first |
| `Subgraph.ExpandLevel` | src/knowledge_graph/service.py:1124-1136 | a level expands a prefix of its frontier, and all of it unless the cap is met |
| `Subgraph.SearchLevels` | src/knowledge_graph/service.py:1117-1136 | the node table is the capped prefix of what the expanded nodes discover, with the first delivered entity of each key, and under the cap exactly the levels below `depth` were expanded |
| `Subgraph.GetSubgraph` | src/knowledge_graph/service.py:1107-1138 | the nodes are the first max(1, max_nodes) of the uncapped discovery order, no two of one kind and id: the root, then the entity that the expanded nodes deliver first for its kind and id; the edges are those delivered for the expanded nodes, beginning with the root's; under the cap every delivered entity is represented; an unknown root gives nothing |
| `Subgraph.TableInFields` | src/knowledge_graph/service.py:1130-1138 | the node table in kinds and ids: the root, each further node the first delivered of its kind and id, no two alike, and under the cap every delivered entity represented |
| `Subgraph.OffersOfResult` | src/knowledge_graph/service.py:1124-1130 | the edges are what `get_neighbors` delivers for the kind and id of each expanded node of the result, node after node |
| `Subgraph.RootIsExpanded` | src/knowledge_graph/service.py:1121-1130 | with a level to search and room for a second node, the edges begin with those delivered for the root's kind and id |
| `Subgraph.SearchMeaning` | src/knowledge_graph/service.py:1121-1138 | the outcome of a search is that prefix, without repeats, and under the cap has the edges of all nodes within depth - 1 hops |
| `Subgraph.UncappedReach` | src/knowledge_graph/service.py:1107-1138 | without the cap the nodes are exactly those within `depth` hops, each once |
| `Subgraph.UncappedConnects` | src/knowledge_graph/service.py:1107-1138 | a node is found without the cap if and only if at most `depth` delivered edges connect the root to it |
| `Subgraph.TruncationIsClosestFirst` | src/knowledge_graph/service.py:1131-1135 | a node left out by the cap is never closer to the root than a node that is kept |
| `Subgraph.ClosedWhenAllFits` | src/knowledge_graph/service.py:1128-1135 | every returned edge leads to a returned node if and only if all that the expanded nodes lead to fits the cap |
| `Subgraph.ClosedExactlyWhen` | src/knowledge_graph/service.py:1128-1135 | on the inputs alone: closed if and only if the whole uncapped search fits the cap, or expanding some prefix of the uncapped order leads to exactly as many nodes as the cap admits |
| `Subgraph.CapLeavesDanglingEdge` | src/knowledge_graph/service.py:1128-1135 | a hub with two neighbours, one level, cap two: one neighbour is kept, the edge to the other dangles |
| `Subgraph.UncappedIsClosed` | src/knowledge_graph/service.py:1128-1138 | a result the cap did not shorten is closed |
| `DependencyLevels.LevelResolver.constructor` | frontend/src/lib/dependencyGraph.ts:18-19 | levelling starts with nothing settled and nothing under visit |
| `DependencyLevels.LevelResolver.LevelOf` | frontend/src/lib/dependencyGraph.ts:21-47 | terminates for any dependencies, restores the visiting set, settles the action (unless under visit) without changing earlier entries; level 0 exactly for actions without present dependencies, none above the number settled; keeps every claim that passes from dependencies to dependents |
| `DependencyLevels.LevelResolver.ComputeLevel` | frontend/src/lib/dependencyGraph.ts:30-46 | the same beyond the memo and the guard |
| `DependencyLevels.LevelResolver.LevelAbove` | frontend/src/lib/dependencyGraph.ts:42-46 | an action with present dependencies settles one above the best of their answers |
| `DependencyLevels.LevelResolver.MaxDependencyLevel` | frontend/src/lib/dependencyGraph.ts:42-44 | answers every present dependency with the action under visit and leaves a best level above which the action may settle |
| `DependencyLevels.ResolveLevels` | frontend/src/lib/dependencyGraph.ts:49-51 | exactly the queue's ids are levelled, none above their number; every claim that passes from dependencies to dependents holds of all levels |
| `DependencyLevels.GroupByLevel` | frontend/src/lib/dependencyGraph.ts:53-63 | strictly ascending non-empty levels, each holding exactly its actions in input order, every action in one |
| `DependencyLevels.NodeChain` | frontend/src/lib/dependencyGraph.ts:43 | one more than the longest chain among the dependencies is the longest chain of the action |
| `DependencyLevels.NodeIsExact` | frontend/src/lib/dependencyGraph.ts:43 | for an action from which no cycle can be reached, no dependency was cut short by the guard, so one more than their best level is its longest chain |
| `DependencyLevels.LevelClaimHereditary` | frontend/src/lib/dependencyGraph.ts:21-47 | being exact where no cycle can be reached, and resting on a dependency one level below when above 1, are claims that the computation passes on, so every memoised level has them |
| `DependencyLevels.CycleHasNoLongestChain` | frontend/src/lib/dependencyGraph.ts:25-29 | from an action that can reach a cycle there are chains of every length |
| `DependencyLevels.ExactExactlyWhereFree` | frontend/src/lib/dependencyGraph.ts:21-47 | a level is its action's longest chain if and only if no cycle can be reached from the action, whatever the rest of the queue is |
| `DependencyLevels.LowerMeansAcyclic` | frontend/src/lib/dependencyGraph.ts:21-47 | if every dependency is on a lower level, levels fall strictly along every chain, so no chain closes |
| `DependencyLevels.ExactMeansLower` | frontend/src/lib/dependencyGraph.ts:12-15 | exact levels put every present dependency strictly lower |
| `DependencyLevels.NoLevelSkipped` | frontend/src/lib/dependencyGraph.ts:43-46 | below every occurring exact level all lower levels occur |
| `DependencyLevels.Descend` | frontend/src/lib/dependencyGraph.ts:43-45 | whatever the cycles, below an occurring level all levels down to 1 occur |
| `DependencyLevels.Consecutive` | frontend/src/lib/dependencyGraph.ts:61-63 | an ascending listing without gaps counts 0, 1, 2, ... |
| `DependencyLevels.ConsecutiveExactlyWhen` | frontend/src/lib/dependencyGraph.ts:53-63 | for a non-empty queue, cycles included, the listing runs 0, 1, 2, ... if and only if some action has no present dependency |
| `DependencyLevels.AcyclicHasRoot` | frontend/src/lib/dependencyGraph.ts:38-41 | a non-empty acyclic queue has an action without present dependency |
| `DependencyLevels.BuildDependencyLevels` | frontend/src/lib/dependencyGraph.ts:17-64 | every action in exactly one level, in input order, levels bounded by the number of ids; a level is the longest chain if and only if its action reaches no cycle; dependencies all lower if and only if acyclic; the levels run 0, 1, 2, ... if and only if some action has no present dependency, as one does in an acyclic queue |
| `DependencyLevels.ByIdIsLast` | frontend/src/lib/dependencyGraph.ts:18 | an id stands for the last action of the queue that has it |
| `DependencyLevels.CirclesInFields` | frontend/src/lib/dependencyGraph.ts:25-44 | no cycle is reachable if and only if no chain of named dependencies comes twice through one action |
| `DependencyLevels.LayeringPartitions` | frontend/src/lib/dependencyGraph.ts:53-63 | every position of the queue stands in exactly one level, levels ascend, and each holds its actions in queue order |
| `DependencyLevels.LevelInFields` | frontend/src/lib/dependencyGraph.ts:21-63 | an action stands at the length of its longest chain of dependencies named by the actions and present in the queue, if and only if no such chain comes twice through one action |
| `DependencyLevels.SelfDependencyLandsOnLevelOne` | frontend/src/lib/dependencyGraph.ts:25-29 | a self-dependent action alone in the queue ends up on level 1, with no level 0 |
| `QueueSearch.Enqueue` | frontend/src/lib/graphLayout.ts:62-67 | exactly the undiscovered neighbours are appended, once each, one hop farther |
| `QueueSearch.Distances` | frontend/src/lib/graphLayout.ts:57-68 | the distance map is exact hop distance, its insertion order ascends by distance without repeats |
| `QueueSearch.SettledCovers` | frontend/src/lib/graphLayout.ts:59-68 | once every discovered node is expanded, everything within k hops has a distance of at most k |
| `QueueSearch.CloserNeighbor` | frontend/src/lib/graphLayout.ts:62-64 | every node at distance d > 0 has a neighbour at distance d - 1 |
| `RadialLayout.BuildAdjacency` | frontend/src/lib/graphLayout.ts:44-55 | the adjacency sets are the undirected joins between present nodes |
| `RadialLayout.GroupRings` | frontend/src/lib/graphLayout.ts:70-75 | rings appear as 0, 1, 2, ... and each holds exactly the keys at that distance |
| `RadialLayout.PlaceByDistance` | frontend/src/lib/graphLayout.ts:70-99 | the placements are the complete sorted rings, from the centre outwards |
| `RadialLayout.LayoutRadial` | frontend/src/lib/graphLayout.ts:32-100 | the result places the root's complete rings, each sorted by key, ring after ring, with the last entity of each key; nothing for an absent root |
| `RadialLayout.LexMeaning` | frontend/src/lib/graphLayout.ts:79 | a key placed before another is a proper prefix of it, or has the smaller character where the two first differ |
| `RadialLayout.LayoutInFields` | frontend/src/lib/graphLayout.ts:39-99 | in the entities' own texts: placements run through rings and indexes without gaps, each ring in ascending order of `kind:id`, each with the last node of that text; nothing is placed exactly when no node reads as the root |
| `RadialLayout.RingInFields` | frontend/src/lib/graphLayout.ts:44-68 | a placement's ring is at most k if and only if a walk of at most k edges, followed in either direction between texts of present nodes, leads to it from the root's text |
| `RadialLayout.WalksArePlaced` | frontend/src/lib/graphLayout.ts:57-99 | whatever such a walk leads to is placed |
| `RadialLayout.RingIsDistance` | frontend/src/lib/graphLayout.ts:57-68 | a placed node is reachable in k hops if and only if its ring is at most k: the ring is its shortest undirected distance |
| `RadialLayout.RingsUnique` | frontend/src/lib/graphLayout.ts:57-79 | rings are determined by reachability alone |
| `RadialLayout.LayoutIgnoresListOrder` | frontend/src/lib/graphLayout.ts:23-31 | the output, order included, is the same for any permutation or repetition of edges and of nodes with distinct keys |
| `RadialLayout.EdgeSpansAtMostOneRing` | frontend/src/lib/graphLayout.ts:48-68 | an edge between placed nodes joins the same or adjacent rings |
| `RadialLayout.PlacesExactlyTheConnected` | frontend/src/lib/graphLayout.ts:57-99 | every node connected to the root is placed exactly once and no other node is |
| `Trajectories.WindowedDistance` | src/foresight/matching.py:45-68 | the aligned slices always have equal length, and nothing is compared exactly when the window is empty |
| `Trajectories.FirstStepIsCompared` | src/foresight/matching.py:50-59 | aligned at a candidate's very first step, one step is compared |
| `Trajectories.MeanOfPairs` | src/foresight/matching.py:56-68 | the distance at an anchor is the mean over the min(window, anchor + 1) step pairs that end together |
| `Trajectories.BestAnchor` | src/foresight/matching.py:96-108 | the anchor kept is the first minimiser of mean distance over all anchors, with its own distance and number of compared steps; none exactly for an empty window or candidate |
| `Trajectories.CollectMatches` | src/foresight/matching.py:88-118 | one best match per eligible candidate, in candidate order |
| `Trajectories.MatchTrajectories` | src/foresight/matching.py:71-121 | the result is the first `top_n` of those matches in stable descending similarity |
| `Trajectories.BestMatchInSteps` | src/foresight/matching.py:96-118 | a match's anchor is the first with the least mean distance d over the compared pairs, its length their number, its similarity s such that s(1 + d) = 1 |
| `Trajectories.TopMatchesInSteps` | src/foresight/matching.py:84-121 | every match is of another trajectory with steps, compared with the current trajectory's latest steps; they descend in similarity, as many as the slice keeps |
| `Trajectories.EligibleExactly` | src/foresight/matching.py:88-95 | every candidate with steps that is not the current zone of the current scenario is considered, and no other, in order |
| `Trajectories.OlderStepsChangeNothing` | src/foresight/trajectory.py:55-62 | older steps in front of a current trajectory that fills the window leave the result as it is |
| `Trajectories.ShortTrajectoryIsTheWindow` | src/foresight/trajectory.py:55-62 | a current trajectory of at most the window size is compared with all its steps |
| `Trajectories.TopMatchesUnique` | src/foresight/matching.py:71-121 | the result is determined by the inputs |
| `Trajectories.BestMatchUnique` | src/foresight/matching.py:96-118 | a candidate earns exactly one match |
| `Trajectories.BestMatchIsValid` | src/foresight/matching.py:110-118 | a match's anchor exists and its similarity is in (0, 1] |
| `Trajectories.KeepsTheMostSimilar` | src/foresight/matching.py:120-121 | kept and omitted matches together are all matches, the kept ones are sorted, and no omitted match is more similar than a kept one |
| `Forecast.Earliest` | src/foresight/forecast.py:62 | the minimum by timestamp, drawn from the candidates |
| `Forecast.NearestMeaning` | src/foresight/forecast.py:56-62 | the earliest later tick at or after the target, absent exactly when there is none |
| `Forecast.ShorterHorizonEvidence` | src/foresight/forecast.py:77-82 | a match with evidence at one horizon has evidence, observed no later, at every shorter one |
| `Forecast.EvidenceShrinks` | src/foresight/forecast.py:75-109 | evidence never grows with the horizon, so availability never returns once lost |
| `Forecast.ProjectionWithin` | src/foresight/forecast.py:111-114 | the divisor is positive and the projected risk lies between any bounds of the risks it cites |
| `Forecast.CountVotes` | src/foresight/forecast.py:116-120 | the vote table holds each seen tier's total similarity, in order of first appearance |
| `Forecast.Vote` | src/foresight/forecast.py:116-121 | the winner carries a maximal share and is the first seen among those that do |
| `Forecast.VotesAddUp` | src/foresight/forecast.py:111-120 | the tier votes add up to the total evidence weight |
| `Forecast.MajorityWins` | src/foresight/forecast.py:121 | a tier with more than half the weight is the winner |
| `Forecast.GenerateForecast` | src/foresight/forecast.py:65-132 | one point per horizon; risk and tier absent exactly without evidence, else the weighted mean and the vote of exactly that evidence |
| `Forecast.EvidenceCites` | src/foresight/forecast.py:59-95 | a match cites the risk, tier, time and elapsed minutes of the first of the earliest steps at or after its anchor's time plus the horizon, with its own scenario, zone and similarity; it cites nothing exactly when it has no such step |
| `Forecast.EvidenceInFields` | src/foresight/forecast.py:75-95 | the evidence is that of exactly the matches with such a step, in match order |
| `Forecast.WeightsAreSums` | src/foresight/forecast.py:111-120 | total weight, weighted risk and tier weight are sums of the cited similarities, of risk times similarity, and of the similarities of that tier |
| `Forecast.WinnerIsElected` | src/foresight/forecast.py:116-121 | no observed tier has more similarity behind it than the winner, and those first observed before it have less |
| `Forecast.PointInFields` | src/foresight/forecast.py:74-132 | a point in the matches' own steps: horizon, evidence, mean risk and elected tier |
| `Confidence.SquaresShift` | src/foresight/confidence.py:65-67 | squared deviations about any centre exceed those about the mean by n times the squared shift |
| `Confidence.VarianceBound` | src/foresight/confidence.py:65-67 | observations in 0..100 never have a variance above 2500 |
| `Confidence.AgreementBounds` | src/foresight/confidence.py:68-71 | every agreement term is in [0.5, 1] |
| `Confidence.AgreementFloorReached` | src/foresight/confidence.py:69-71 | 0.5 is reached by two observations at the ends of the scale |
| `Confidence.AgreementsBounds` | src/foresight/confidence.py:61-71 | all terms in [0.5, 1], and there is none exactly when no horizon has two pieces of evidence |
| `Confidence.ComputeConfidence` | src/foresight/confidence.py:45-86 | the four factors as defined and their minimum |
| `Confidence.AgreementMeaning` | src/foresight/confidence.py:64-70 | agreement is one less a hundredth of the observed risks' population standard deviation, not below zero |
| `Confidence.AgreementsInFields` | src/foresight/confidence.py:61-70 | there is one term for exactly the horizons with two pieces of evidence or more, in order |
| `Confidence.CompletenessInFields` | src/foresight/confidence.py:51-55 | completeness is the filled share of the requested window, one from the requested length on, zero for none requested |
| `Confidence.CoverageInFields` | src/foresight/confidence.py:73-75 | coverage is the share of (match, horizon) pairs with evidence, zero without pairs |
| `Confidence.FactorsInFields` | src/foresight/confidence.py:45-86 | all four factors in the inputs' own fields, and the overall confidence as the least of them |
| `Confidence.FactorsInUnit` | src/foresight/confidence.py:45-86 | for a forecast from the same matches all factors are in [0, 1], overall is at most each, and agreement is 0 exactly when no horizon has two pieces of evidence |
| `EarlyWarning.DeriveEarlyWarning` | src/foresight/progression.py:127-182 | shutdown exactly when some horizon gives critical at least half the weight, citing the first such horizon; otherwise the first projection against the current tier |
| `EarlyWarning.SignalInFields` | src/foresight/progression.py:127-182 | a shutdown exactly when some horizon has half its similarity at critical, citing how many observations of the first such horizon are critical; otherwise the first projected tier against the current one by severity, an unknown tier counting as normal |
| `EarlyWarning.CriticalMajorityProjectsCritical` | src/foresight/progression.py:132-151 | a critical share above half signals shutdown and makes that horizon's projected tier critical |
| `EarlyWarning.ExpectedResolution` | src/foresight/progression.py:59-93 | mean minutes to the first later normal tick over the matches that have one, and how many have |
| `EarlyWarning.BackAtReturn` | src/foresight/progression.py:61-68 | the minutes of a match run from its anchor to its first later step back at normal |
| `EarlyWarning.ResolutionMeaning` | src/foresight/progression.py:59-93 | the resolution is the mean of those minutes over exactly the matches that return, absent without any |
| `EarlyWarning.FirstReturnMeaning` | src/foresight/progression.py:63-68 | the tick used is the first later normal one; absent exactly when there is none |
| `OperationalForesight.EvidenceOnScale` | src/foresight/forecast.py:83-94 | evidence stays on the scale of the recorded risks |
| `OperationalForesight.MatchListFacts` | src/foresight/service.py:134-137 | what matching returns is fit for forecasting and inherits the candidates' scale |
| `OperationalForesight.ResultOnScale` | src/foresight/service.py:137-144 | over recorded risks in 0..100 every projection lies within its own evidence and the overall confidence is in [0, 1] |
| `OperationalForesight.GenerateOperationalForesight` | src/foresight/service.py:105-163 | each stage is fed by exactly the stage before; refused exactly without a recent tick; evidence never returns at a longer horizon; positive confidence needs two pieces of evidence at some horizon |
| `Tiering.RunKeeps` | src/domain/orchestrator/tiering.py:101-151 | over any run the entry threshold is the current tier's own and a pending tier differs from it and has not dwelt long enough |
| `Tiering.PendingMeaning` | src/domain/orchestrator/tiering.py:136-151 | the pending counter counts consecutive ticks that argued for the pending tier |
| `Tiering.ChangeNeedsDwell` | src/domain/orchestrator/tiering.py:110-112 | a tier change means the last `dwell_ticks` ticks all argued for it |
| `Tiering.DwellForcesChange` | src/domain/orchestrator/tiering.py:136-144 | conversely, that many consecutive ticks arguing for one tier change to it |
| `Tiering.ArguedScores` | src/domain/orchestrator/tiering.py:114-126 | arguing upwards means a score at the new threshold, arguing downwards a score the margin below the current one |
| `Tiering.TickInFields` | src/domain/orchestrator/tiering.py:101-151 | one tick on the configuration's own fields: which tier a score argues for, the count it adds to, and the tier and threshold entered when the count reaches the dwell; a tick that argues for none forgets what was pending |
| `Tiering.DefaultsInNumbers` | src/domain/orchestrator/tiering.py:42-50 | the configuration in use at its edges: 40, 65 and 85 twice change the tier, once does not, and an elevated zone falls at 55 but not at 55.1 |
| `Tiering.ChangeRate` | src/domain/orchestrator/tiering.py:136-151 | at most one change per dwell period (per tick for a dwell below one), however the score oscillates |
| `Tiering.HoldsWithinMargin` | src/domain/orchestrator/tiering.py:119-126 | scores within the margin and below the next band never move the zone |
| `Tiering.ConstantScoreConverges` | src/domain/orchestrator/tiering.py:101-151 | a constant score reaches its settled tier within the dwell time, from any consistent state, and stays |
| `Tiering.SettledOrder` | src/domain/orchestrator/tiering.py:119-126 | two starting tiers keep their order under a constant score if and only if it is not in the lower one's hysteresis band while below the higher one's cutoff |
| `Tiering.CriticalFallsPastElevated` | src/domain/orchestrator/tiering.py:119-126 | with the defaults a score of 60 keeps elevated but takes critical down to watch |
| `Fusion.BaseBounds` | src/domain/orchestrator/risk_formula.py:98-122 | the weighted base lies between the bounds of the risks times the weight sum |
| `Fusion.MeanExactlyWhen` | src/domain/orchestrator/risk_formula.py:120-122 | for weights that sum to one, the base is always a mean of the risks if and only if no weight is negative |
| `Fusion.NegativeOvershoots` | src/domain/orchestrator/risk_formula.py:120-122 | with a negative weight, lowering that agent alone takes the base above every risk |
| `Fusion.AtLeastMeanExactlyWhen` | src/domain/orchestrator/risk_formula.py:125-138 | for weights that sum to one, the score never falls below the base if and only if no weight is negative and the bonus is not negative or cannot apply |
| `Fusion.NegativeBeatsCap` | src/domain/orchestrator/risk_formula.py:136-138 | with a negative weight the base can exceed 100, where the score is capped |
| `Fusion.MonotoneExactlyWhen` | src/domain/orchestrator/risk_formula.py:125-138 | for weights that sum to one, the score is monotone on the scale if and only if no weight is negative and the bonus is harmless (not negative, cannot apply, or always applies without turning the sign), or the score is always zero |
| `Fusion.NegativeIsNotMonotone` | src/domain/orchestrator/risk_formula.py:120-138 | with a negative weight some rise lowers the score, unless it is always zero |
| `Fusion.UniformDrops` | src/domain/orchestrator/risk_formula.py:125-138 | with a harmful bonus, two uniform reports of which the higher one scores lower |
| `Fusion.ScaleExactlyWhen` | src/domain/orchestrator/risk_formula.py:136-138 | for weights that sum to one, risks in 0..100 always give a score in 0..100 if and only if no weight is negative and the bonus never turns the sign, or the score is always zero |
| `Fusion.NegativeWeightInstance` | src/domain/orchestrator/risk_formula.py:59-62 | weights of 1.5 and -0.5 without a bonus: the base exceeds the score, and a rise lowers it |
| `Fusion.BonusFiresExactlyWhen` | src/domain/orchestrator/risk_formula.py:125-133 | for every configuration, the bonus rule fires if and only if the bonus is positive and two agents are elevated |
| `Fusion.ConfidenceIsLeast` | src/domain/orchestrator/risk_formula.py:141-148 | the compound confidence is some agent's and no agent's is lower |
| `Fusion.FuseInFields` | src/domain/orchestrator/risk_formula.py:98-176 | fusion in the reports' own fields: the sum of weight times risk, times one plus kappa for each elevated agent beyond the first, capped at 100, with the least confidence; it fails exactly without weights or without a weighed report |
| `Scheduler.RunTick` | src/domain/orchestrator/scheduler.py:171-223 | the nested loop computes the level-by-level fold, refusing the tick at the first agent with nothing to fall back on |
| `Scheduler.AgentInLevel` | src/domain/orchestrator/scheduler.py:206-221 | a level that names an agent, once or more often, leaves its answer as result and cache entry, or its cached result decayed |
| `Scheduler.AgentFate` | src/domain/orchestrator/scheduler.py:190-221 | for any plan, the last level naming an agent decides its result: it sees exactly the earlier levels' results; success is its result and new cache entry, failure shows its cached result decayed and leaves the cache |
| `Scheduler.ResultsOfThePlan` | src/domain/orchestrator/scheduler.py:186-223 | a tick ends with a result for each agent of the plan and no other, and the cache loses nothing |
| `Scheduler.CacheInTick` | src/domain/orchestrator/scheduler.py:190-223 | within a tick the cache holds the last genuine answer so far, or what it held before |
| `Scheduler.CacheHoldsLastGenuine` | src/domain/orchestrator/scheduler.py:208-221 | over any run of any plan the cache holds exactly each agent's most recent genuine answer, never a substitute |
| `Scheduler.LastAnswerMeaning` | src/domain/orchestrator/scheduler.py:88-96 | that answer was given at some tick and level, and none was given after it |
| `Scheduler.SubstituteDecaysOnce` | src/domain/orchestrator/scheduler.py:214-218 | however long an agent has been failing, it shows the risk of its most recent genuine answer, that answer's confidence decayed once by the time since it was computed, and the present time |
| `RiskPipeline.RaisesExactlyWhen` | src/services/risk_pipeline.py:84-91 | since the plan runs every weighted agent, a tick raises if and only if the scheduler does |
| `RiskPipeline.ExecutionCaches` | src/services/scenario_builder.py:333-336 | over an execution the cache handed on is what the scheduler leaves after the ticks so far, so the most recent genuine answers |
| `RiskPipeline.RowShowsAnswer` | src/services/risk_pipeline.py:186-217 | each row shows the score, multiplier and rules that fusion makes of its tick's results, asked with that cache |
| `RiskPipeline.TickOnScale` | src/domain/orchestrator/scheduler.py:128-156 | a substitute keeps its last genuine risk, so results and cache stay on the scale of the agents' answers |
| `RiskPipeline.RowsOnScale` | src/services/risk_pipeline.py:186-217 | over any execution with any pattern of failing agents every row's score is in 0..100, given agents that answer on that scale and a configuration that keeps it |
| `ScenarioTicks.ExecuteZone` | src/services/scenario_builder.py:326-337 | the loop asks the engine at each time with the cache its answer before left and the tick number; row i carries answer i's score, rules and multiplier and the tiers before and after; it completes if and only if there is a row for every time, else the engine raises at the next one |
| `ScenarioTicks.ExecutionTrace` | src/services/scenario_builder.py:326-337 | the caches and tier states of an execution, from the initial ones on, each handed from one tick to the next |
| `ScenarioTicks.RowsMatchTimes` | src/services/scenario_builder.py:333-337 | one row per tick in tick order, up to the first tick that raises, and all of them exactly when none does |
| `ScenarioTicks.RowsAreChained` | src/services/risk_pipeline.py:198-217 | for any engine, completed or not, each row's tier before is the previous row's tier, starting from normal, and the state is the tiering run over the rows' own scores |
| `ScenarioTicks.WindowIsChained` | src/services/replay.py:59-70 | any contiguous window of a chained history is chained |
| `ScenarioTicks.KeptReadsTable` | src/infra/db/repositories/risk_assessment_repository.py:102-105 | rows merged by key and read in time order are exactly the last row of each time, in strictly ascending time |
| `ScenarioTicks.KeptIsSuffix` | src/infra/db/repositories/risk_assessment_repository.py:102-105 | if only the first tick time repeats, what is persisted is a suffix of what was produced |
| `ScenarioTicks.PersistedChain` | src/services/scenario_builder.py:326-337 | then the persisted rows are chained, for any engine and configuration |
| `ScenarioTicks.JumpBreaksChain` | src/services/risk_pipeline.py:207-217 | with the configuration in use, a score jump one tick before a repeated later time leaves a persisted row whose tier before is not its predecessor's tier |
| `ScenarioTicks.BoundaryTickHidesChange` | src/domain/simulation/generator.py:57-75 | the instance of two adjoining sensor events that repeat their common boundary time |
| `ScenarioTicks.ChainExactlyWhen` | src/services/risk_pipeline.py:207-217 | persistence keeps the chain for every engine and configuration, and for every engine under the configuration in use, if and only if only the first tick time repeats |
| `ScenarioTicks.RunsChainExactlyWhen` | src/services/scenario_builder.py:326-337 | runs one after the other are chained if and only if each is and each starts where the one before it ended |
| `ScenarioTicks.KeptOfRuns` | src/infra/db/repositories/risk_assessment_repository.py:102-105 | runs that come strictly one after the other do not touch each other's rows in the table |
| `ScenarioTicks.ExecutionsChainExactlyWhen` | src/services/scenario_builder.py:326-337 | what successive executions leave in the table forms one chain if and only if each part is chained and starts where the one before it ended |
| `ScenarioTicks.DistinctTimesChainExactlyWhen` | src/services/scenario_builder.py:329-337 | with distinct tick times, if and only if every execution but the last ended at normal |
| `ScenarioTicks.RestartBreaksChain` | src/services/scenario_builder.py:329-330 | the instance of an execution that ends at critical followed by another |
| `ScenarioTicks.ReexecutionReplaces` | src/infra/db/repositories/risk_assessment_repository.py:102-105 | executing again over all the times of an earlier execution leaves no trace of the earlier one |
| `Timeline.RowBookmarks` | src/services/replay.py:93-127 | one row's bookmarks, absent justification parts included |
| `Timeline.DetectBookmarks` | src/services/replay.py:87-152 | all row bookmarks in order, then the first greatest score, then the permits |
| `Timeline.ServerInFields` | src/services/replay.py:87-152 | the server's listing in the rows' own fields: each row's tier change, critical entry and bonus, each once and exactly when its justification says so, then the first highest score, then the permits in order |
| `Timeline.PeakIndex` | src/services/replay.py:129-130 | the first row with the greatest score, -1 without rows |
| `Timeline.PeakOf` | src/services/replay.py:130 | the server's maximum is that row |
| `Timeline.ClientPass` | frontend/src/lib/operatorTimeline.ts:30-70 | one pass yields the events of neighbouring rows, and the same peak the server finds |
| `Timeline.DeriveTimelineEvents` | frontend/src/lib/operatorTimeline.ts:29-82 | those events and the peak, stably sorted by time |
| `Timeline.ClientInFields` | frontend/src/lib/operatorTimeline.ts:29-82 | the client's timeline in the rows' own fields: tier changes and critical entries against the row before, bonuses at their onset, and the first highest score, in ascending time and at one time in the order found |
| `Timeline.TierEventsAgree` | frontend/src/lib/operatorTimeline.ts:40-53 | over a chained window the server's tier events are its first row's followed by exactly the client's |
| `Timeline.DetectorsAgree` | frontend/src/lib/operatorTimeline.ts:29-82 | the complete results agree: same tier changes and critical entries after the first row, same highest-risk tick |
| `Timeline.TiersAgreeExactlyWhen` | frontend/src/lib/operatorTimeline.ts:40-53 | over rows with distinct times the detectors agree on tiers after the first row if and only if the rows are chained |
| `Timeline.BonusAccounting` | frontend/src/lib/operatorTimeline.ts:55-61 | for any rows, server bonus bookmarks number the client's plus the bonus ticks the client does not report |
| `Timeline.BonusesAgreeExactlyWhen` | frontend/src/lib/operatorTimeline.ts:55-61 | the complete results hold the same bonus events if and only if no bonus tick goes unreported |
| `Timeline.UnreportedAreRepeats` | frontend/src/lib/operatorTimeline.ts:55-69 | of rows as the engine writes them, none goes unreported if and only if no bonus tick follows a bonus tick |
| `Timeline.RepeatedBonusIsNotReported` | frontend/src/lib/operatorTimeline.ts:55-61 | the instance of two bonus ticks in a row |
| `Timeline.ExecutionWindowsAgree` | src/services/replay.py:87-127 | the agreement holds on every contiguous window of what any execution persists |
| `Timeline.TableAgreesExactlyWhen` | src/services/replay.py:87-127 | on whatever an execution leaves in the table the detectors agree on tiers if and only if it is chained |
| `Timeline.AlwaysAgreeExactlyWhen` | frontend/src/lib/operatorTimeline.ts:18-25 | for every engine under the configuration in use they agree if and only if only the first tick time repeats |
| `Timeline.BoundaryTickMisreported` | frontend/src/lib/operatorTimeline.ts:40-53 | the instance of a repeated boundary time, where they report different tier changes |
| `Replay.RangeIsContiguous` | src/infra/db/repositories/risk_assessment_repository.py:94-98 | rows of a time range are contiguous, and which |
| `Replay.SortRestores` | src/services/replay.py:70 | sorting the newest-first rows restores time order |
| `Replay.FetchIsWindow` | src/services/replay.py:56-70 | the fetch is a contiguous window: every row of the closed range, or the newest 5000 of them; nothing when the range ends before it starts |
| `TimeMachine.NearestIndex` | frontend/src/lib/replayTimeline.ts:11-26 | the first position closest to the target; 0 on an empty axis |
| `TimeMachine.FindNearestTimestampIndex` | frontend/src/lib/replayTimeline.ts:16-25 | the loop finds that position |
| `TimeMachine.NearestMeaning` | frontend/src/lib/replayTimeline.ts:11-26 | if any timestamp lies within d of the target so does the one found, and within less than d if it stands later |
| `TimeMachine.NearestHitsExactly` | frontend/src/lib/replayTimeline.ts:5-11 | a target on the axis is hit exactly |
| `TimeMachine.MergeTimestamps` | frontend/src/lib/replayTimeline.ts:30-38 | strictly increasing, exactly the zones' timestamps, as many as there are distinct ones |
| `TimeMachine.AllTimesMeaning` | frontend/src/lib/replayTimeline.ts:30-38 | the axis holds exactly the timestamps of the zones' rows |
| `TimeMachine.AssessmentAtOrBefore` | frontend/src/lib/timeline.ts:12-24 | the scan computes the lookup |
| `TimeMachine.AtOrBeforeMeaning` | frontend/src/lib/timeline.ts:3-24 | the lookup is the latest row not after the time, absent exactly when every row is later |
| `TimeMachine.LookupMeaning` | frontend/src/lib/timeline.ts:12-24 | the row found is the first of the latest not after the time |
| `TimeMachine.LookupFindsTick` | frontend/src/lib/timeline.ts:16-23 | looking up a tick's own time finds that tick |
| `TimeMachine.LookupMonotone` | frontend/src/lib/timeline.ts:16-23 | a later time never shows an earlier row nor loses a zone |
| `TimeMachine.CountTicks` | src/services/replay.py:160-185 | the tick count is the number of distinct timestamps, which is the merged axis length |
| `TimeMachine.BuildReplay` | src/services/replay.py:155-186 | each zone's window under its id, all zones' bookmarks with their zones stably sorted by time, and the tick count |
| `TimeMachine.ReplayInFields` | src/services/replay.py:155-186 | a replay in its own fields: a timeline per zone asked for, named after it, and each zone's marks over its window and the permits issued in the closed range, zone after zone, in ascending time and at one time in the order gathered |
| `TimeMachine.ZoneIsShown` | src/services/replay.py:169-176 | restricted to a zone, the final list is that zone's bookmarks, as often as the zone was asked for, in stable time order, whatever the other zones contribute |
| `TimeMachine.RepetitionsAgreeExactlyWhen` | src/services/replay.py:164-176 | listings in time order agree if and only if their sorted n-fold repetitions do |
| `TimeMachine.OwnBookmarks` | src/services/replay.py:164-174 | a zone's own bookmarks are there as often as the zone was asked for |
| `TimeMachine.ReplayAgreesExactlyWhen` | src/services/replay.py:155-186 | what the final list shows of a zone asked for n times agrees with n times what the client derives from its window: on the highest-risk tick always, on tiers after the first tick if and only if the window is chained, on bonuses if and only if none goes unreported |
| `TimeMachine.ReplayMatchesClient` | src/services/replay.py:56-186 | execute with any engine, persist, ask for any zones and range: the final list, restricted to the zone, names the same tier changes and critical entries after the first tick, and the same highest-risk tick, as the client, as often as the zone was asked for |
| `TimeMachine.ReplayState.constructor` | frontend/src/context/ReplayContext.tsx:96-107 | an empty axis, index 0, stopped, no custom bookmark |
| `TimeMachine.ReplayState.StartReplay` | frontend/src/context/ReplayContext.tsx:103-107 | a new target resets cursor, playback and bookmarks |
| `TimeMachine.ReplayState.DataArrived` | frontend/src/context/ReplayContext.tsx:96-101 | the axis becomes the merged timestamps; nothing else changes |
| `TimeMachine.ReplayState.TimerTick` | frontend/src/context/ReplayContext.tsx:109-123 | advances by one, or stops at the last index |
| `TimeMachine.ReplayState.PressPlay` | frontend/src/context/ReplayContext.tsx:127 | starts playback where the cursor stands |
| `TimeMachine.ReplayState.PressPause` | frontend/src/context/ReplayContext.tsx:128 | stops playback where the cursor stands |
| `TimeMachine.ReplayState.PressReset` | frontend/src/context/ReplayContext.tsx:129-132 | stops and returns to index 0 |
| `TimeMachine.ReplayState.PressNext` | frontend/src/context/ReplayContext.tsx:133-136 | stops and moves on, clamped to the last index (-1 on an empty axis) |
| `TimeMachine.ReplayState.PressPrevious` | frontend/src/context/ReplayContext.tsx:137-140 | stops and moves back, clamped to 0 |
| `TimeMachine.ReplayState.ScrubToIndex` | frontend/src/context/ReplayContext.tsx:141-147 | stops and moves to the clamped position |
| `TimeMachine.ReplayState.JumpToTimestamp` | frontend/src/context/ReplayContext.tsx:148-154 | stops and moves to the nearest tick |
| `TimeMachine.ReplayState.AddCustomBookmark` | frontend/src/context/ReplayContext.tsx:155-167 | appends a bookmark at the cursor's time, only while the cursor is on the axis |
| `TimeMachine.ReplayState.AssessmentAt` | frontend/src/context/ReplayContext.tsx:176-185 | the zone's lookup at the cursor's time, nothing when the cursor is off the axis |
| `TimeMachine.CursorStaysInRange` | frontend/src/context/ReplayContext.tsx:109-154 | on a loaded non-empty axis every sequence of actions keeps the cursor in range |
| `TimeMachine.PlaybackRuns` | frontend/src/context/ReplayContext.tsx:109-123 | uninterrupted playback shows each index in turn and stops by itself at the last, and exactly when |
| `TimeMachine.WaitingIndex` | frontend/src/context/ReplayContext.tsx:133-147 | before any data the index is -1 if the last cursor move was Next, else 0 |
| `TimeMachine.InRangeAfterLoadExactlyWhen` | frontend/src/context/ReplayContext.tsx:96-136 | when data arrives the cursor is in range if and only if the last cursor move was not Next |
| `TimeMachine.NextWhileLoading` | frontend/src/context/ReplayContext.tsx:133-136 | one press of Next before the data arrives, and the cursor shows nothing afterwards |
| `TimeMachine.JumpShowsTick` | frontend/src/context/ReplayContext.tsx:148-185 | jumping to any tick of any zone and looking that zone up shows exactly that tick |
| `TimeMachine.ForwardNeverGoesBack` | frontend/src/context/ReplayContext.tsx:176-185 | moving the cursor forward never moves any zone back in time |
| `Oscillation.DetectOscillation` | frontend/src/lib/decisionStability.ts:60-80 | the scan counts the changes between successive non-flat directions; flagged exactly from two on |
| `Oscillation.ReversalsCountTurns` | frontend/src/lib/decisionStability.ts:64-78 | the count is the number of positions at which the history moves against its last move |
| `Oscillation.NoReversalsIffMonotone` | frontend/src/lib/decisionStability.ts:52-80 | no reversal if and only if the history only rises or only falls |
| `Oscillation.ReversalsSymmetric` | frontend/src/lib/decisionStability.ts:64-78 | the count is the same read forwards or backwards |
| `Oscillation.RepeatingATick` | frontend/src/lib/decisionStability.ts:70-77 | repeating any tick leaves the count unchanged |
| `Episodes.EscalationEpisodeMinutes` | src/historical/analytics.py:119-137 | every zone's closed excursions, zone after zone |
| `Episodes.OneDurationPerReturn` | src/historical/analytics.py:132-136 | as many durations as steps from non-normal to normal |
| `Episodes.DurationsAreExcursions` | src/historical/analytics.py:124-136 | each duration is the time in minutes of one maximal excursion from normal and back, in time order |
| `Episodes.ReturnsByPosition` | src/historical/analytics.py:132-136 | the returns are the positions of a normal tick after one that is not |
| `Episodes.DurationsAccount` | src/historical/analytics.py:131-136 | closed durations plus the open excursion so far equal the time spent after non-normal ticks |
| `Episodes.DurationsAddUp` | src/historical/analytics.py:122-136 | the durations add up to the gaps after non-normal ticks before the last normal tick |
| `Episodes.OpenExcursionAddsNothing` | src/historical/analytics.py:124-127 | an excursion still open at the end contributes nothing |
| `CompositeIds.SplitThenJoin` | src/knowledge_graph/entities.py:80-96 | splitting loses nothing and yields separator-free parts |
| `CompositeIds.JoinThenSplit` | src/knowledge_graph/entities.py:80-96 | joined parts split back if and only if they are separator-free |
| `CompositeIds.PairRoundTrip` | src/knowledge_graph/entities.py:87-129 | every two-part parser undoes its printer if and only if both parts are separator-free |
| `CompositeIds.TripleRoundTrip` | src/knowledge_graph/entities.py:132-140 | the same for three parts |
| `CompositeIds.ParsedWasPrinted` | src/knowledge_graph/entities.py:94-140 | whatever parses was printed from exactly those parts, and nothing parses as both |
| `CompositeIds.PairIsNotTriple` | src/knowledge_graph/entities.py:119-140 | two-part and three-part ids are never confused |
| `CompositeIds.SeparatorInPartConfuses` | src/knowledge_graph/entities.py:80-96 | a part that holds the separator: its pair does not parse as a pair and reads as a triple |
| `Recommendations.ExpectedIds` | src/knowledge_graph/recommendation_text.py:136-141 | an id is present so far exactly when the baseline or an earlier recognised rule brought it |
| `Recommendations.RecommendationTemplatesFor` | src/knowledge_graph/recommendation_text.py:126-143 | baseline first, then each recommendation where it is first brought, in firing order |
| `Recommendations.DeriveRecommendations` | frontend/src/lib/recommendations.ts:102-123 | the same sequence; only the baseline without a justification |
| `Recommendations.ExpectedInFields` | src/knowledge_graph/recommendation_text.py:127-143 | the listing in the tables' own entries: the tier's baseline, then the entries of exactly the rules that bring a new id, in firing order |
| `Recommendations.NoRepeats` | src/knowledge_graph/recommendation_text.py:127-129 | no id is given twice and the baseline comes first |
| `Recommendations.BothForms` | src/knowledge_graph/recommendation_text.py:127-129 | both forms return one and the same duplicate-free sequence on the same tables |
| `Recommendations.TopIsBaseline` | frontend/src/lib/decisionStability.ts:26-30 | the top recommendation is the tier's baseline if it has one, whatever rules fired |
| `Recommendations.TopWithoutBaseline` | frontend/src/lib/recommendations.ts:108-120 | without a baseline the top one is the first recognised rule's, and there is none exactly when no rule is recognised |
| `Recommendations.TopRecommendationId` | frontend/src/lib/decisionStability.ts:26-30 | the id of the first derived recommendation, none if there is none |
| `Recommendations.CountUnchanged` | frontend/src/lib/decisionStability.ts:37-50 | the length of the maximal run of ticks whose derived top recommendation is the newest tick's |

## Left out

- Neighbour builders and entity builders of the knowledge graph: `get_neighbors` is an arbitrary fixed
  function of the node, and of an entity's attributes only its key and caption are kept.
- Agents, context builders, counterfactual evaluation and the simulation curves: the engine behind the
  tick loop is an arbitrary function that may raise; scheduler, fusion and tiering are modelled, and
  composed in `RiskPipeline` with arbitrary agents. Of a row's rules only those of fusion are kept.
- Repositories, sessions, routers, settings, logging: `history_by_zone` and the merge in `create` are
  modelled by what their queries say; 5000-row limits on permits are not applied.
- React components, network code, presentation and export: user interface.
- Static tables (decks, lessons, compliance, playbooks, recommendation texts): parameters, taken to be
  the same on both sides of the Python/TypeScript mirror; the lookup of inherited object properties in
  the TypeScript table is not modelled.
- Floating-point rounding: scores, weights and distances are exact reals; the square root is any
  function that inverts squaring on non-negative reals, the per-step distance any non-negative
  function, the staleness decay any function of elapsed time. Weights sum to one exactly, not up to a
  tolerance.
- Coordinates of the radial layout: ring, index in the ring and ring size are kept, the trigonometry is
  not.
- Timestamp strings: times are integers, so neither the order of ISO strings with unequal fractions nor
  the truncation of `Date` to milliseconds is captured.
- Key order: keys compare by character; JavaScript compares UTF-16 code units, which differs only
  outside the basic plane.
- Labels and texts of bookmarks, events, stages and reasons; `derive_progression`'s stage labels.
- Tiers outside the four known ones, except as an unknown current tier in `derive_early_warning`.
- Two gas types in one zone, which the source excludes by its approved scope.
- Playback speed and the timer period: only the order of ticks matters.
- Deck contributions, search, and the remaining analytics: counting and filtering settled by reading.
- Executions that write nothing, and interleaved executions: the former leave no trace; of executions
  whose times overlap without one covering the other, only the table itself is modelled (the last row
  written for each time).
