# Online stochastic matching policies, modelled in Dafny

This project models the combinatorial core of an online stochastic matching
library. The library keeps a **type graph**: one adjacency list over
`onSize` online types and `offSize` offline vertices. It draws a
**realization**, which is the type of each online arrival. Its **online
policies** assign each arrival, once and irrevocably, to an unmatched offline
neighbour of its type or to nobody (`-1`):

- **Balance-SWOR** and **Balance-OCS** pour one unit of water over the levels
  of the arrival's neighbours. The ceiling comes from `fill_water`, a
  bisection root finder. The policy then picks an unselected neighbour by
  sampling without replacement. The weight is the water each neighbour
  receives (SWOR) or that water times a positive correction weight `w` (OCS).
- **Regularized Greedy** precomputes offline and online masses from an
  edge-probability table `typeProb`. It gives each arrival the unmatched
  neighbour of smallest score, ties going to the first in adjacency order.
  After a match it empties and drains the masses around the matched vertex.
- **`match_size`** counts the matched entries of a result.

The modules are:

- `TypeGraph` (graph.dfy): the `graph` class as a Dafny `class Graph` with
  the fields `adj`, `types`, `onSize`, `offSize` and `realSize`.
- `WaterFill` (waterfill.dfy): `fill_water`.
- `Balance` (balance.dfy): both balance policies.
- `Greedy` (greedy.dfy): Regularized Greedy.
- `Matching` (matching.dfy): `match_size`, plus the facts all policies share
  about a result vector.

Every policy is written twice. First, a pure state-transition model: `Run`
gives the state after the first k arrivals, and the arrival step is a
function. Second, imperative methods over arrays, whose loops are proved
equal to that model. The balance model carries the levels, the selected
flags and the result. The greedy model carries the two mass vectors, the
matched flags and the result. The properties are lemmas about the model:

- validity of the result;
- no vertex matched twice;
- irrevocability;
- level monotonicity;
- "unmatched exactly when every neighbour is taken";
- first-minimum selection;
- the closed forms of the mass set-up and depletion.

Doubles are Dafny `real`s. Random draws are explicit inputs:

- the type draws of `realize`, as a sequence;
- the shuffle, as a permutation;
- each balance sample, as a fraction `u` in [0, 1] of the mass, so the
  sample `u * mass` lies in the closed range [0, mass]. A
  `uniform_real_distribution(0, mass)` draw never equals `mass` when
  mass > 0, so the model admits one sample the code never draws; every
  property below is stated for all samples in [0, mass].

The transcendental functions `w`, `alpha` and `beta` are function
parameters; `w` is assumed positive. The lambda `p(x) = min(x / theta, 1)`
is modelled exactly.

## Model

| member | source | states |
|---|---|---|
| Matching.CountMatched | stochastic_matching_library.cpp:28-35 | the number of entries different from -1, at most the length |
| Matching.MatchSize | stochastic_matching_library.cpp:28-35 | the loop's counter equals the number of entries different from -1, and lies in [0, \|res\|] |
| Matching.CountZeroIff | stochastic_matching_library.cpp:30-34 | the count is 0 exactly when every entry is -1, as for a result initialised to -1 and never written |
| Matching.CountAppend | stochastic_matching_library.cpp:31-33 | the count of a + b is the count of a plus the count of b |
| Matching.CountDistinctBound | stochastic_matching_library.cpp:28-35 | a result whose matches are distinct and drawn from a set of vertices has at most that many matches |
| Matching.NothingDecided | algorithms/balance.cpp:23-25 | all flags false and all entries -1 satisfy the run invariant before the first arrival |
| Matching.TakenSoFar | algorithms/balance.cpp:51-52 | after k decisions a vertex is in the result exactly when it is among the first k entries |
| Matching.RecordMarks | algorithms/balance.cpp:97 | the flags after flagging the pick, of unchanged length, nothing flagged for -1; Matching.RecordKeepsDecided proves that recording keeps the invariant |
| Matching.RecordRes | algorithms/balance.cpp:98 | the result after writing the pick at entry i, of unchanged length, nothing written for -1; Matching.RecordKeepsDecided proves that earlier entries stay and entry i is the pick |
| Matching.RecordKeepsDecided | algorithms/balance.cpp:97-98 | recording -1 or an unflagged neighbour of arrival k keeps the invariant: later entries -1, entries neighbours or -1, flag set exactly for the vertices in the result, no vertex twice; earlier entries unchanged, entry k the pick |
| Matching.DecidedBound | stochastic_matching_library.cpp:28-35 | a result satisfying the invariant has at most as many matches as arrivals, as nodes, and as distinct vertices in the lists of the arrivals' types |
| TypeGraph.WithEdge | graph.h:22-26 | add_edge pushes j onto the list of i and i onto the list of j (both onto the list of i when i == j) and leaves every other list alone |
| TypeGraph.EdgeCount | graph.h:22-26 | adding an edge raises the count of j in the list of i, and of i in the list of j, by one each, and changes no other count |
| TypeGraph.WithEdgeSymmetric | graph.h:22-26 | add_edge preserves symmetry: the count of v in the list of u equals the count of u in the list of v |
| TypeGraph.WithEdgeInRange | graph.h:22-26 | adding an edge between two nodes keeps every list within the nodes of the graph |
| TypeGraph.Iota | graph.h:68 | iota writes 0, 1, ..., n-1 |
| TypeGraph.Permute | graph.h:69 | the shuffled sequence holds at position k the element from position perm[k] |
| TypeGraph.PermutationIsOnto | graph.h:69 | a repetition-free sequence of n values in 0..n-1 takes every value in 0..n-1 |
| TypeGraph.ShuffledIotaIsPermutation | graph.h:66-70 | iota followed by a shuffle gives a permutation of 0..n-1 containing every value |
| TypeGraph.DistinctInRangeBound | graph.h:66-70 | pigeonhole: a repetition-free sequence over 0..n-1 has at most n entries |
| TypeGraph.Resized | graph.h:58 | vector::resize keeps the first n entries and pads with zeros |
| TypeGraph.Resize | graph.h:13 | adj.resize(k) on a fresh vector gives k lists |
| TypeGraph.Graph.constructor | graph.h:8-19 | onSize = n, offSize = m, n + m empty lists, realSize 0, no types |
| TypeGraph.Graph.AddEdge | graph.h:22-26 | adj becomes WithEdge(old adj, i, j), the invariant (symmetric, in range) is kept, and no other field changes |
| TypeGraph.Graph.GetAdj | graph.h:29-32 | returns adj, with no change of state |
| TypeGraph.Graph.OnlineSize | graph.h:35-38 | returns onSize, with no change of state |
| TypeGraph.Graph.Realize | graph.h:55-71 | realSize == \|types\| == n; adj, onSize and offSize unchanged; stochastic mode: types are the draws, all in [0, onSize); otherwise: types are iota shuffled by perm, a permutation of 0..n-1 |
| TypeGraph.CopyDraws | graph.h:63-64 | the stochastic loop leaves exactly the draws |
| TypeGraph.Identity | graph.h:68 | the iota loop leaves 0..n-1 |
| WaterFill.Overflow | algorithms/balance.cpp:7-10 | the water above the terrain at height mid is non-negative |
| WaterFill.OverflowMonotone | algorithms/balance.cpp:7-10 | the overflow is non-decreasing in mid, which makes the bisection sound |
| WaterFill.OverflowLipschitz | algorithms/balance.cpp:7-10 | raising the surface by d raises the overflow by at most \|level\| * d |
| WaterFill.HalvedFloorDecreases | algorithms/balance.cpp:5 | halving a ratio above 1 lowers its floor, without going below 0 |
| WaterFill.HalvesShrink | algorithms/balance.cpp:5-15 | each half of a bracket wider than eps has a smaller measure floor((r - l) / eps), so the loop terminates |
| WaterFill.Bisect | algorithms/balance.cpp:4-16 | the bisection: halve the bracket, keeping the lower half when the overflow at the midpoint reaches water, until it is at most eps wide, then return its midpoint; WaterFill.BisectBracket proves the result lies in the bracket within eps/2 of the crossing |
| WaterFill.WaterLevel | algorithms/balance.cpp:2-17 | the ceiling fill_water returns, the bisection on [0, water]; WaterFill.WaterLevelBounds and WaterFill.WaterLevelError prove its bounds, its crossing and its overflow error |
| WaterFill.NarrowBracket | algorithms/balance.cpp:16 | the midpoint of a bracket at most eps wide is within eps/2 of the crossing |
| WaterFill.HalveBracket | algorithms/balance.cpp:11-14 | the half the loop keeps is again a bracket: 0 <= l <= r <= water, overflow(l) < water unless l == 0, overflow(r) >= water unless r == water |
| WaterFill.BisectBracket | algorithms/balance.cpp:4-16 | from a bracket the bisection returns a point of the bracket within eps/2 of the crossing |
| WaterFill.WaterLevelBounds | algorithms/balance.cpp:2-17 | for water >= 0 the ceiling lies in [0, water]; it is within eps/2 of the crossing |
| WaterFill.OverflowAbove | algorithms/balance.cpp:7-16 | if the overflow eps/2 below c is under water, the overflow at c exceeds water by at most \|level\| * eps/2 |
| WaterFill.OverflowBelow | algorithms/balance.cpp:7-16 | if the overflow eps/2 above c reaches water, the overflow at c falls short of water by at most \|level\| * eps/2 |
| WaterFill.CrossingError | algorithms/balance.cpp:4-16 | a height within eps/2 of the crossing and inside (eps/2, water - eps/2) has an overflow within \|level\| * eps/2 of water |
| WaterFill.WaterLevelError | algorithms/balance.cpp:2-17 | when fill_water's ceiling lies inside (eps/2, water - eps/2), the water it holds is within \|level\| * eps/2 of the water poured |
| WaterFill.OverflowAt | algorithms/balance.cpp:7-10 | the inner loop computes the overflow at mid |
| WaterFill.FillWater | algorithms/balance.cpp:2-17 | the loop keeps the bracket and computes the bisection's value, which lies in [0, water] for water >= 0 and is within eps/2 of the crossing; inside (eps/2, water - eps/2) its overflow is within \|level\| * eps/2 of water |
| Balance.Max | algorithms/balance.cpp:40 | std::max: at least both arguments and one of them |
| Balance.Increment | algorithms/balance.cpp:86 | the water max(newLevel - y, 0) a vertex at level y receives, times w(y); Balance.MassNonNegative proves the mass built from it non-negative for w > 0 and Balance.UnitIncrement reduces it to the SWOR increment for w = 1 |
| Balance.NeighbourLevels | algorithms/balance.cpp:76-79 | the neighbours' levels in adjacency order; Balance.CollectLevels proves the push_back loop builds it |
| Balance.NewLevel | algorithms/balance.cpp:81 | the arrival's ceiling under the rule fill, applied to the neighbours' levels; for fill_water it lies in [0, 1] by Balance.WaterCeiling |
| Balance.WaterCeiling | algorithms/balance.cpp:81 | fill_water(level, 1) lies in [0, 1] |
| Balance.WaterCeilingInUnit | algorithms/balance.cpp:81 | the fill_water ceiling rule has all its values in [0, 1] |
| Balance.Mass | algorithms/balance.cpp:83-86 | the weighted water of the unselected vertices among the first m neighbours; Balance.TotalMass proves the loop computes it and Balance.MassNonNegative that it is non-negative |
| Balance.Crosses | algorithms/balance.cpp:91-95 | a position whose vertex is unselected and whose running mass reaches the sample; Balance.PickIsFirstCrossing proves the pick is the first such position |
| Balance.PickFrom | algorithms/balance.cpp:91-101 | the scan returns -1 or an unselected neighbour |
| Balance.Raise | algorithms/balance.cpp:102-103 | the levels after the raise loop over the first m neighbours, one per node; Balance.RaiseFacts states what it does to each level and Balance.RaiseLevels proves the loop computes it |
| Balance.RaiseFacts | algorithms/balance.cpp:102-103 | raising never lowers a level, lifts each neighbour to at least the ceiling, takes either the old level or the ceiling, and leaves non-neighbours alone |
| Balance.Sample | algorithms/balance.cpp:88-89 | the sample as the fraction u of the mass; Balance.FractionBelow puts it in [0, mass] for u in [0, 1] |
| Balance.Choice | algorithms/balance.cpp:83-101 | the pick is -1 or an unselected neighbour of the arrival's type |
| Balance.Arrive | algorithms/balance.cpp:76-103 | one arrival: the pick flagged and recorded, every neighbour raised to the ceiling; Balance.ArriveConsistent proves it keeps the run consistent and Balance.ArriveArrays that the loop body computes it |
| Balance.Initial | algorithms/balance.cpp:66-68 | every level 0, nothing selected, every entry -1; Matching.NothingDecided proves the invariant holds of it |
| Balance.Run | algorithms/balance.cpp:74-104 | one level and one flag per node, one entry per arrival |
| Balance.RunStep | algorithms/balance.cpp:74-104 | the run after k + 1 arrivals is arrival k applied to the run after k |
| Balance.MassNonNegative | algorithms/balance.cpp:84-86 | with w > 0 the running mass, hence the total mass, is non-negative |
| Balance.PickIsFirstCrossing | algorithms/balance.cpp:91-101 | the pick is the first unselected neighbour, in adjacency order, whose running mass reaches the sample; -1 exactly when there is none |
| Balance.SomeCrossing | algorithms/balance.cpp:91-101 | a sample at most the mass of a prefix holding an unselected vertex is crossed within that prefix |
| Balance.UnmatchedIffAllSelected | algorithms/balance.cpp:83-101 | for a sample at most the total mass, the scan returns -1 exactly when every neighbour is selected |
| Balance.FractionBelow | algorithms/balance.cpp:88-89 | the sample u * mass lies in [0, mass] |
| Balance.ChoiceUnmatchedIffFull | algorithms/balance.cpp:83-101 | with w > 0 and u in [0, 1], the arrival is left unmatched exactly when every neighbour is already selected |
| Balance.ZeroMassTakesFirstFree | algorithms/balance.cpp:88-99 | when the mass is 0 and some neighbour is free, the first free neighbour is picked |
| Balance.RaiseInUnit | algorithms/balance.cpp:102-103 | raising levels in [0, 1] to a ceiling in [0, 1] keeps them in [0, 1] |
| Balance.ArriveConsistent | algorithms/balance.cpp:91-101 | recording arrival k's choice keeps the invariant, and it records -1 exactly when every neighbour was taken by an earlier arrival |
| Balance.RunConsistent | algorithms/balance.cpp:74-104 | every prefix of the run keeps the invariant and leaves an arrival unmatched exactly when its neighbours are all taken |
| Balance.ConsistentStep | algorithms/balance.cpp:74-104 | one arrival of the run keeps it consistent |
| Balance.LevelsAt | algorithms/balance.cpp:74-104 | the levels after k arrivals, one per node, computed without the picks; Balance.LevelsIgnoreChoices proves they are the run's, and Balance.LevelsMonotone and Balance.LevelsStayInUnit that they never decrease and stay in [0, 1] |
| Balance.LevelsIgnoreChoices | algorithms/balance.cpp:102-103 | the run's levels do not depend on the picks |
| Balance.ArrivalLevels | algorithms/balance.cpp:102-103 | arrival i raises every neighbour of its type, selected or not, to at least its ceiling and leaves other levels unchanged |
| Balance.LevelsMonotone | algorithms/balance.cpp:102-103 | no level ever decreases over the run |
| Balance.LevelsStayInUnit | algorithms/balance.cpp:102-103 | with ceilings in [0, 1] every level stays in [0, 1] |
| Balance.ArrivalDecisions | algorithms/balance.cpp:97-98 | one arrival keeps every earlier entry and every flag already set |
| Balance.Irrevocable | algorithms/balance.cpp:91-101 | later arrivals never change an earlier entry nor unselect a vertex |
| Balance.RunResult | algorithms/balance.cpp:64-106 | the final result has one entry per arrival, each -1 or a neighbour of its type; no vertex twice; -1 exactly when every neighbour was taken earlier; at most as many matches as arrivals, as nodes, and as distinct vertices in the lists of the arrivals' types |
| Balance.NoNeighboursUnmatched | algorithms/balance.cpp:91-101 | an arrival whose type has no neighbours stays unmatched |
| Balance.UnitIncrement | algorithms/balance.cpp:48 | the unit weight makes the OCS increment the SWOR increment |
| Balance.CollectLevels | algorithms/balance.cpp:78-79 | the loop gathers the neighbours' levels in adjacency order |
| Balance.TotalMass | algorithms/balance.cpp:83-86 | the loop computes the weighted mass of the unselected neighbours |
| Balance.Scan | algorithms/balance.cpp:91-101 | the loop with its break returns the model's pick |
| Balance.Record | algorithms/balance.cpp:95-99 | a pick is flagged and recorded for arrival i; -1 changes nothing |
| Balance.RaiseLevels | algorithms/balance.cpp:102-103 | the loop raises the neighbours' levels as the model does |
| Balance.ArriveArrays | algorithms/balance.cpp:76-103 | the loop body leaves the three arrays in the model's state after the arrival |
| Balance.StepArrays | algorithms/balance.cpp:74-104 | one iteration takes the arrays from the run after i arrivals to the run after i + 1 |
| Balance.RunArrays | algorithms/balance.cpp:74-104 | the loop leaves the arrays equal to the run over all arrivals |
| Balance.BalanceOcs | algorithms/balance.cpp:64-106 | balance_ocs returns the run's result, one entry per arrival, each -1 or a neighbour of its type, no vertex twice, -1 exactly when all neighbours were taken earlier |
| Balance.BalanceSwor | algorithms/balance.cpp:21-60 | balance_swor returns the run with unit weight, with the same guarantees |
| Greedy.Min | algorithms/regularized_greedy.cpp:15 | std::min: at most both arguments and one of them |
| Greedy.P | algorithms/regularized_greedy.cpp:13-16 | p(x) <= 1 and p(x) <= x / theta, equal to one of them |
| Greedy.PMonotone | algorithms/regularized_greedy.cpp:13-16 | p is non-decreasing |
| Greedy.PShape | algorithms/regularized_greedy.cpp:13-16 | p is x / theta up to theta and 1 from theta on |
| Greedy.Prob | algorithms/regularized_greedy.cpp:23 | the stored probability of a pair, 0 for an absent one; Greedy.Touch proves that typeProb[key] reads it |
| Greedy.Touch | algorithms/regularized_greedy.cpp:23 | typeProb[key] inserts an absent pair at 0, keeps existing entries, and reads the stored probability or 0 |
| Greedy.ExtendsKeepsProb | algorithms/regularized_greedy.cpp:43 | a table extended this way reads every pair as the original does |
| Greedy.Lookup | algorithms/regularized_greedy.cpp:58 | a lookup in an extension of the original table extends it again and reads the original probability |
| Greedy.OccurrencesCount | algorithms/regularized_greedy.cpp:21-24 | counting v along a list gives its multiplicity |
| Greedy.PerOccurrenceTimes | algorithms/regularized_greedy.cpp:21-24 | adding p once per occurrence of v gives p times the number of occurrences |
| Greedy.PerOccurrenceCount | algorithms/regularized_greedy.cpp:21-24 | adding p once per occurrence of v gives p times the multiplicity of v |
| Greedy.Visit | algorithms/regularized_greedy.cpp:23-25 | one set-up step: the edge's probability added to the offline mass of j and the online mass of i |
| Greedy.TypeSums | algorithms/regularized_greedy.cpp:21-26 | the masses after the first q edges of type i, one per node; Greedy.TypeSumsClosedForm gives their closed form and Greedy.AccumulateType proves the loop computes them |
| Greedy.Setup | algorithms/regularized_greedy.cpp:17-27 | the masses after the set-up over the first k types, one per node; Greedy.SetupOffline and Greedy.SetupOnline give their closed forms and Greedy.SetupMasses proves the loops compute them |
| Greedy.OnlineSum | algorithms/regularized_greedy.cpp:21-25 | the sum of prob(i, j) over the list of i, which Greedy.SetupOnline proves the online mass of i equals |
| Greedy.OfflineSum | algorithms/regularized_greedy.cpp:19-24 | the sum over the types i of prob(i, v) once per occurrence of v, which Greedy.SetupOffline proves the offline mass of v equals |
| Greedy.TypeSumsClosedForm | algorithms/regularized_greedy.cpp:21-26 | the edges of type i add prob(i, v) once per occurrence to the offline mass of v, and their probabilities to the online mass of i alone |
| Greedy.SetupOffline | algorithms/regularized_greedy.cpp:17-27 | after set-up the offline mass of v is the sum of prob(i, v) over the online types i, with multiplicity, missing pairs counting 0 |
| Greedy.SetupOnline | algorithms/regularized_greedy.cpp:17-27 | after set-up the online mass of type i is the sum of prob(i, j) over its list; other nodes keep 0 |
| Greedy.Term | algorithms/regularized_greedy.cpp:43 | one score term, beta(t) * (p(x) - p(x - q)) for online mass x and edge probability q |
| Greedy.Penalty | algorithms/regularized_greedy.cpp:41-44 | the terms summed over the first m entries of the list of j |
| Greedy.Score | algorithms/regularized_greedy.cpp:39-44 | alpha(t) times the offline mass of j plus its terms; Greedy.ScoreOf proves the loop computes it |
| Greedy.Scores | algorithms/regularized_greedy.cpp:35-44 | one score per position of the neighbour list; Greedy.BestFacts and Greedy.ArriveRule prove the pick is the first minimum among the unmatched ones |
| Greedy.Best | algorithms/regularized_greedy.cpp:33-51 | the selection scan returns -1 or an unmatched neighbour |
| Greedy.BestFacts | algorithms/regularized_greedy.cpp:33-51 | -1 exactly when no unmatched neighbour scores below 1e10; otherwise the minimum score among unmatched neighbours, taken at the first position attaining it |
| Greedy.Time | algorithms/regularized_greedy.cpp:39 | t = i / realSize lies in [0, 1) |
| Greedy.Drain | algorithms/regularized_greedy.cpp:57-58 | the online masses after the first m drain steps, one per node; Greedy.DrainClosedForm gives their closed form and Greedy.DrainArray proves the loop computes them |
| Greedy.DrainClosedForm | algorithms/regularized_greedy.cpp:57-58 | the drain takes prob(v, index) from v once per occurrence of v in the list |
| Greedy.Deplete | algorithms/regularized_greedy.cpp:52-59 | the masses after the update for the pick, one per node; Greedy.DepleteFacts states its effect on every entry |
| Greedy.DepleteFacts | algorithms/regularized_greedy.cpp:52-59 | on a match the offline mass of the vertex becomes 0, others stay; the online mass of k drops by its multiplicity times prob(k, index), non-neighbours stay; on -1 nothing changes |
| Greedy.Initial | algorithms/regularized_greedy.cpp:17-29 | the set-up masses, nothing matched, every entry -1; Matching.NothingDecided proves the invariant holds of it |
| Greedy.Choice | algorithms/regularized_greedy.cpp:31-51 | the pick is -1 or an unmatched neighbour of the arrival's type |
| Greedy.Arrive | algorithms/regularized_greedy.cpp:33-59 | one arrival: the pick recorded and flagged, the masses depleted; Greedy.ArriveRule states which vertex is picked, Greedy.ArriveDecided that it keeps the invariant and Greedy.ArriveArrays that the loop body computes it |
| Greedy.Run | algorithms/regularized_greedy.cpp:31-60 | masses and flags for every node, one entry per arrival |
| Greedy.RunStep | algorithms/regularized_greedy.cpp:31-60 | the run after k + 1 arrivals is arrival k applied to the run after k |
| Greedy.ArriveRule | algorithms/regularized_greedy.cpp:33-51 | the arrival is unmatched exactly when no unmatched neighbour scores below 1e10; else it takes a minimum-score unmatched neighbour, the first in adjacency order |
| Greedy.ArriveDecided | algorithms/regularized_greedy.cpp:52-55 | an arrival keeps the invariant of the results |
| Greedy.RunDecided | algorithms/regularized_greedy.cpp:31-60 | every prefix of the run keeps the invariant |
| Greedy.ArrivalDecisions | algorithms/regularized_greedy.cpp:52-55 | arrival i writes only entry i, with -1 or a neighbour that was unmatched before it; the matched set only grows, by that vertex alone |
| Greedy.Irrevocable | algorithms/regularized_greedy.cpp:52-55 | later arrivals never change an earlier entry nor unmatch a vertex |
| Greedy.RunResult | algorithms/regularized_greedy.cpp:28-61 | the final result has one entry per arrival, each -1 or a neighbour of its type, no vertex twice, at most as many matches as arrivals, as nodes, and as distinct vertices in the lists of the arrivals' types |
| Greedy.AccumulateType | algorithms/regularized_greedy.cpp:21-26 | the loop over the edges of type i adds their probabilities as the model does, and only ever extends the table |
| Greedy.SetupMasses | algorithms/regularized_greedy.cpp:17-27 | the set-up loops leave the masses of the model's set-up |
| Greedy.ScoreOf | algorithms/regularized_greedy.cpp:39-44 | the loop computes the model's score of vertex j |
| Greedy.Choose | algorithms/regularized_greedy.cpp:33-51 | the loop computes the model's (minimum, index) scan |
| Greedy.DrainArray | algorithms/regularized_greedy.cpp:57-58 | the loop drains the online masses as the model does |
| Greedy.Update | algorithms/regularized_greedy.cpp:52-59 | on a match: entry recorded, vertex flagged, masses depleted as the model does; on -1 nothing changes |
| Greedy.ArriveArrays | algorithms/regularized_greedy.cpp:33-59 | the loop body leaves the arrays in the model's state after the arrival |
| Greedy.StepArrays | algorithms/regularized_greedy.cpp:31-60 | one iteration takes the arrays from the run after i arrivals to the run after i + 1 |
| Greedy.RunArrays | algorithms/regularized_greedy.cpp:31-60 | the arrival loop leaves the arrays equal to the run over all arrivals |
| Greedy.RegularizedGreedy | algorithms/regularized_greedy.cpp:2-62 | returns the run's result, one entry per arrival, each -1 or a neighbour of its type, no vertex twice, at most realSize and \|adj\| matches; the table only gains absent pairs at 0 |

## Left out

- Floating point: doubles are `real`, so rounding, the order of summation and the accuracy of `eps = 1e-8` beyond the bracket are not modelled.
- The transcendental functions `exp`, `log` and `sqrt` in `w` (algorithms/balance.cpp:69-73), `alpha` and `beta` (algorithms/regularized_greedy.cpp:5-12): these lambdas are function parameters. Only `w > 0` is assumed, as `PositiveWeight`.
- The random generator `rng`, `uniform_int_distribution`, `shuffle` and `uniform_real_distribution`: replaced by a sequence of draws, a permutation and a fraction per arrival. Balance always draws a sample, so the model takes one fraction per arrival.
- The zero-mass arrival follows the code: a sample is drawn even when the mass is 0, and `chosen >= sample` then takes the first unselected neighbour (`Balance.ZeroMassTakesFirstFree`). The arrival is left unmatched only when every neighbour is selected.
- Balance.BalanceSwor: modelled as the OCS pass with weight 1, since `max(d, 0) * 1 == max(d, 0)` over reals (`Balance.UnitIncrement`); it is not a separate copy of the loop.
- Balance.Run: the policy steps and lemmas take the ceiling rule as a parameter `fill`. The array methods use `WaterCeiling`, the model of `fill_water(level, 1)`.
- Greedy.RegularizedGreedy: the returned table is stated to extend `typeProb` (existing entries unchanged, added pairs at 0), not which absent pairs were added.
- Algorithms only declared in graph.h:84-123 (`maximum_matching`, `ranking`, `min_degree`, `poisson_ocs` and the others): their bodies are not part of this model.
- The LP code (GLPK, `natural_lp`) and the flow-graph headers: foreign or not part of this model.
- I/O and driver code: `print`, `print_type`, the file readers and writers, and `main`.
- `compute_mean_std` and the result summaries (stochastic_matching_library.cpp:38-115): floating-point statistics.
- Integer widths: `int` indices and counters are unbounded; with sizes that fit in an `int` the source cannot overflow them.
