# Bounded playlist route planning, verified

A route is a sequence of library track indices. Artist, album and track identity
each carry a repeat window, and two tracks of a route that share an identity must
stand further apart than its window. The planners of this project insert tracks
into a fixed source order, between two anchors, or around a destination block,
under those windows and under acoustic leg costs. This model states what those
planners compute and proves it, for every input.

Acoustic scoring is an arbitrary function from a route prefix and a next track to
an optional non-negative real; "none" is a non-finite score. Seeded variation is
an arbitrary fixed key of a path.

| module | models |
|---|---|
| `Repeats` | the three repeat identities, the window scans, pairwise and positional safety |
| `RepeatSpacing` | the lower-bound dynamic program over difference constraints |
| `Ordering` | lexicographic keys, sorting, removal of equal neighbours, beams and buckets |
| `AnchoredPath`, `AnchoredSearch` | the layered beam search between two anchors: reference definition of a feasible path, and the search itself |
| `LowerBounds` | admissibility of the ordering bounds under the triangle inequality |
| `GapPlans`, `MultiGap` | global planning over several source gaps: reference definition of a good plan, generation by generation search, final proof, selection |
| `DurationMembership` | branch and bound over memberships with explicit stack, `u64` saturation and checked addition |
| `LocalSearch` | 2-opt and relocation with the shared score cache |
| `EvolvingRoute` | automatic insertion and exact-count search with one track per gap |
| `DestinationBlock` | routes around an immutable block: what a good one is, the checks on a finished route, and the preflight arithmetic |
| `DestinationSearch` | the two-boundary search, as functions of its path searches and as methods |
| `DestinationForecast` | when keeping one bridge a count loses no good route |
| `DestinationWitness`, `PlanWitness` | concrete requests on which a promise fails |
| `Capacity` | the repeat-capacity filter and greedy membership selection |

How the main results are stated:

- A search and its specification are separate. `Feasible`, `GoodPlan`,
  `Eligible`, `ExactTarget` and `GoodDestination` say what a result is without
  mentioning layers, beams or pruning. Each search is proved sound against them
  for every setting of its limits, and complete or optimal against them whenever
  no limit drops a state.
- Whether a limit dropped a state is a ghost result (`cut`), tied both ways to
  the layers, generations and beams written as functions (`SearchUncut`,
  `PlanUncut`, `RepairUncut`, `ExactUncutTo`, `BridgesUncut`). Bounds on the
  limits (`NonBinding`, `Roomy`, `ExactRoomy`) are proved to keep it false.
  `trimmed` says the same of the number of alternatives kept per count.
- When a limit is felt, what it keeps is stated over walks, objectives and
  guidance, not over the comparison keys (`AnchoredSearch.BeamPrefers`,
  `EvolvingRoute.ExactBeamPrefers`); a duration search under a small node budget
  delivers exactly what the first nodes of the pruned tree hold.
- Which requests are refused, and with which error, is stated by conditions on
  the request alone, in both directions.

Where the code and the expectations around it differ, the code is followed:

- The repository's `README.md` (line 16) promises the minimum number of
  additions; `docs/ARCHITECTURE.md` calls the search bounded. The minimum is
  reached whenever no limit drops anything (`MultiGap.PlanRepeatWindowRepair`);
  `PlanWitness.LimitLosesTheMinimum` is a request on which a limit loses it.
- The destination search keeps one bridge sequence per count and boundary, and
  the outward search tests bridges against the first block track only. A good
  route can be lost (`DestinationWitness.KeptBridgeRepeatsTheBlock`).
  `DestinationSearch.OptionsAreChosen` is what the planner returns,
  `DestinationForecast.MatchedExactly` when nothing is lost without a rejoin
  anchor, and `DestinationForecast.NothingIsMissed` a condition a caller can
  check beforehand.
- The gap-by-gap search never tests the first source track against the listening
  history, and the final proof does. It rejects exactly when those two conflict
  (`MultiGap.FinalProofNeverRejects`; `PlanWitness.HistoryRejectsThePlan`).
- The capacity filter counts empty album keys, keys that one track names twice,
  and keys that are repeat keys of one track and the plain artist of another.
  `Capacity.FilterOnRoutable` is the exact condition; three lemmas give inputs
  on which the filter turns away a routable membership.
- The transition-sum test of the quality band only sizes the varied pool, it
  does not choose its members. A varied choice is bounded by its worst leg, and
  by its sum exactly when the pool is no longer than the leading run that passes
  the test (`MultiGap.VariedChoicePasses`;
  `PlanWitness.VariedPlanFailsTheSumTest`).
- The step tests of the anchored search do not look at the track window towards
  the right anchor. `AnchoredPath.StepwiseMatchesWhole` is the exact condition
  under which they decide the whole route; `PlanWitness.StepsMissTheAnchor` is a
  path on which they do not.
- A duration request with minimum 0 considers the empty membership only.
- Ties within epsilon may raise the incumbent of the local search, once per
  neighbour considered; the local optimality bound includes that drift.

## Model

| member | source | states |
|---|---|---|
| Repeats.ScanKeyWindows | src/bridge.rs:337-363 | the early-exit scan returns true exactly when no other position of the route lies within the artist or album window of the inspected one |
| Repeats.IdentitiesSymmetric | src/route.rs:40-50 | artist and album repetition do not depend on the order of the two tracks |
| Repeats.ArtistsRepeatMeaning | src/route.rs:40-50 | artists repeat exactly when both tracks carry repeat keys and share one, or one carries none and both have the same real, not collective, name |
| Repeats.SharedWindowDecides | src/anchored_path.rs:253-279 | one widest shared window decides all three repeat tests at every positive distance, in both directions of the pair |
| Repeats.PositionSafePairs | src/anchored_path.rs:214-232 | a position is safe exactly when every earlier and every later track keeps its distance from it |
| Repeats.SafeFromPositions | src/multi_gap.rs:432-452 | testing every position from an index on is the same as separating every pair that ends there |
| Repeats.CleanIsSafeWithoutTrackWindow | src/route.rs:643-676 | a route without key repeats is exactly one that is safe when the track window is off |
| RepeatSpacing.MinimumRepeatSpacingAdditions | src/multi_gap.rs:19-57 | the dynamic program is exact: every assignment of additions to gaps that separates all repeating source pairs totals at least the result, and some assignment reaches it; an index outside the library is reported instead |
| RepeatSpacing.LeastAdditions | src/multi_gap.rs:19-57 | some placement separates every source with finite windows, so the least number of additions exists and is what the dynamic program returns |
| RepeatSpacing.RequiredIsExact | src/multi_gap.rs:49-52 | the shortfall of one pair is met by a number of additions exactly when the pair is far enough apart with them |
| RepeatSpacing.LowerBoundGrows | src/multi_gap.rs:31-54 | a lower bound at the left end of a constraint gives one at its right end, over all separating assignments |
| RepeatSpacing.SpacedSeparates | src/multi_gap.rs:31-55 | the differences of the cumulative table are themselves an assignment that separates every pair |
| Ordering.KeyLeTotal | src/anchored_path.rs:157-179 | path orders compare any two keys, and two keys below each other are equal |
| Ordering.KeyLeTransitive | src/anchored_path.rs:157-179 | path orders are transitive |
| Ordering.KeyLeMeaning | src/multi_gap.rs:220-231 | the first component in which two keys differ decides: smaller count, worst leg, sum, larger guidance, then the earlier track sequence |
| Ordering.LexLeMeaning | src/multi_gap.rs:230 | track sequences are compared by their first difference, a sequence before its extensions |
| Ordering.SortByStable | src/multi_gap.rs:849 | elements with equal keys keep their order |
| Ordering.ShareIsFloor | src/anchored_path.rs:200 | a percentage of a count is its floor |
| Ordering.ShareGrows | src/anchored_path.rs:200 | a larger percentage never shares out less, and a hundred per cent is everything |
| Ordering.SortBySorts | src/multi_gap.rs:779 | sorting leaves every pair of positions in key order |
| Ordering.SortByMembers | src/multi_gap.rs:779 | sorting neither loses, adds nor repeats elements |
| Ordering.DedupByKeeps | src/multi_gap.rs:780 | dropping neighbours with equal routes keeps every route that occurred and adds no element |
| Ordering.DedupBySorted | src/multi_gap.rs:779-780 | removing equal neighbours keeps the order |
| Ordering.TakeKeepsLeast | src/anchored_path.rs:514-522 | a cut sorted list keeps nothing that comes after a dropped element, and is full when it drops |
| Ordering.BucketMembers | src/multi_gap.rs:788-794 | a bucket holds exactly the elements with its count |
| Ordering.PerBucketHolds | src/multi_gap.rs:788-794 | what survives the cut of its bucket survives in the joined result |
| Repeats.FirstInvalid | src/anchored_path.rs:281-291 | the first index outside the library is reported, everything before it being inside; none is reported exactly when all are inside |
| AnchoredPath.AvailableMeaning | src/anchored_path.rs:378-389 | a track is available exactly when some candidate names it and the outer plan does not own it |
| AnchoredPath.GuidanceIsLastMention | src/anchored_path.rs:383-388 | the guidance of an available track is that of its last mention among the candidates |
| AnchoredPath.OthersHaveNoGuidance | src/anchored_path.rs:510-511 | a track that is not available has guidance zero |
| AnchoredPath.ValidationDecides | src/anchored_path.rs:293-340 | which request is refused and with which error, by conditions on the request alone and in the order of the checks; every other request is searched |
| AnchoredPath.RightAnchorPairs | src/anchored_path.rs:236-244 | the right anchor test is exactly clearance from every non-exempt position before it |
| AnchoredPath.SafetyByPairs | src/anchored_path.rs:538-560 | the whole-route re-check of a complete path equals separation of every pair that ends in a generated position or in the right anchor |
| AnchoredPath.StepwiseMatchesWhole | src/anchored_path.rs:454-481 | exactly when the step tests agree with the whole-route test: they miss only a right anchor that the path itself uses inside the track window |
| AnchoredPath.IncrementalPruningIsExact | src/anchored_path.rs:203-232 | when the right anchor is not an available candidate, passing every step test is equivalent to every generated position being safe in the finished route |
| LowerBounds.WalkCostJoins | src/anchored_path.rs:482-489 | the sum and worst leg of a walk are those of its two parts joined |
| LowerBounds.ShortcutBelowWalk | src/anchored_path.rs:490-511 | under the triangle inequality the direct leg is at most the sum of any walk, which is at most its length times its worst leg |
| LowerBounds.StepBoundsAreAdmissible | src/anchored_path.rs:490-511 | `lower_sum` and `lower_worst` of a partial path never exceed the sum and worst leg of any completion to the requested count |
| LowerBounds.StartBoundsAreAdmissible | src/anchored_path.rs:432-439 | the same for the state each count starts from |
| AnchoredSearch.Search | src/anchored_path.rs:366-627 | every option is a feasible path within the permitted count with its true cost, no path is offered twice, and when no candidate or beam limit drops anything every feasible path within the permitted count is answered: its count has an option, without variation by the least paths under (worst leg, sum, guidance, tracks), with variation and one alternative by one inside the worst-leg band; a request is rejected for the first failed check and for nothing else (`RefusedRightly`); the ghost results say exactly whether a candidate or beam limit dropped a state of any layer (`SearchUncut`) and whether a count had more complete paths than it keeps (`SearchTrimmed`), and the result is the function `SearchOf` of the request; limits that cover every candidate sequence are never felt; what a limit prefers when it is felt is `BeamPrefers` and `CandidateLimitPrefers` |
| AnchoredSearch.SearchKeepsLeast | src/anchored_path.rs:574-609 | without variation, an uncut search that keeps one path a count offers the least feasible path of every count that has one, and nothing else |
| AnchoredSearch.LeastIsOffered | src/anchored_path.rs:574-609 | the least feasible path of a count, which is unique, is the one offered |
| AnchoredSearch.CountKeepsLeast | src/anchored_path.rs:429-609 | one kept alternative of an uncut count is its least feasible path; none is kept only if no path is feasible |
| AnchoredSearch.CompleteCountIsOffered | src/anchored_path.rs:429-627 | a count whose own layers and alternatives drop nothing has every feasible path among the options, whatever happens at other counts |
| AnchoredSearch.RoomySearchUncut | src/anchored_path.rs:514-522 | limits that cover every candidate sequence cut no layer of any searched count |
| AnchoredSearch.EmptyStaysEmpty | src/anchored_path.rs:533-535 | stopping at an empty layer changes neither the result nor whether a limit was felt |
| AnchoredSearch.SearchCount | src/anchored_path.rs:429-609 | the same for one intermediate count: the layers and the kept alternatives are those of `FrontierAt` and `CountPaths`, and the ghost results say exactly whether a layer was cut and whether alternatives were trimmed |
| AnchoredSearch.ExtendStep | src/anchored_path.rs:454-515 | one extension succeeds exactly when the longer path is a legal partial path, and carries its true sum, worst leg and guidance |
| AnchoredSearch.PartialStep | src/anchored_path.rs:454-481 | a path of one more track is legal exactly when its prefix is and the newest track passes the tests of that step |
| AnchoredSearch.LayerExhaustive | src/anchored_path.rs:451-536 | a layer that was not cut holds every legal partial path of its length |
| AnchoredSearch.LayerDistinct | src/anchored_path.rs:517-521 | no two states of a layer spell the same path |
| AnchoredSearch.NonBindingLayer | src/anchored_path.rs:451-536 | limits that cover every candidate sequence cut no layer |
| AnchoredSearch.LayerKeepsLeast | src/anchored_path.rs:520-524 | a beam that drops a state is full, and everything it keeps comes no later in the partial order |
| AnchoredSearch.VariantsKeepLeast | src/anchored_path.rs:514-516 | the candidate limit of one state keeps only variants that come no later than those it drops |
| AnchoredSearch.BeamPrefers | src/anchored_path.rs:157-167 | a beam drops a path only when it is full, and of two paths reached from the same layer the kept one comes no later by the larger of the worst leg and the straight remaining leg per open edge, then by sum with that leg, then by larger guidance, then by tracks |
| AnchoredSearch.CandidateLimitPrefers | src/anchored_path.rs:514-515 | the same of two legal steps from one path, for the candidate limit |
| AnchoredSearch.OnePathFinishes | src/anchored_path.rs:574-609 | if no count has two feasible paths, at most one path of a count is finished |
| AnchoredSearch.EmptyFrontierStops | src/anchored_path.rs:533-535 | an exhaustive layer that is empty leaves no feasible path of the count |
| AnchoredSearch.FeasibleIsPartial | src/anchored_path.rs:538-560 | every feasible path passes all step tests |
| AnchoredSearch.FinishIsFeasible | src/anchored_path.rs:538-571 | a partial path finishes exactly when it is feasible, with the true cost of the whole path |
| AnchoredSearch.QualityCount | src/anchored_path.rs:578-584 | every one of the leading paths that the quality count reaches has a worst leg within the limit of the best's, and there is at least one |
| AnchoredSearch.QualityCountMeaning | src/anchored_path.rs:578-584 | the count is exactly the number of paths in the leading run whose worst leg is at most 2% or 1e-9 above the best's, and whose sum is at most 5% or 1e-9 above it |
| AnchoredSearch.VariedPoolMeaning | src/anchored_path.rs:196-201 | the pool holds one path and, of up to 31 others, the requested percentage rounded down; it grows with the percentage |
| AnchoredSearch.ChooseVaries | src/anchored_path.rs:585-609 | with variation the competing paths are the leading ones of the pool, or as many as were asked for, and the seeded key decides among them, ties by their order; as many are kept as were asked for |
| AnchoredSearch.ChooseWithinBand | src/anchored_path.rs:574-609 | a single varied choice has a worst leg within max(2%, 1e-9) of the best path's |
| AnchoredSearch.ChooseAnswers | src/anchored_path.rs:574-609 | the kept alternatives answer every finished feasible path of their count |
| AnchoredSearch.MinimumIntermediatesIsExact | src/anchored_path.rs:246-279 | for every n, the non-exempt context clears the right anchor after n intermediates exactly when n is at least the computed minimum |
| AnchoredSearch.DirectOfferedExactly | src/anchored_path.rs:394-429 | the empty path is feasible exactly when the minimum is zero and the direct leg is finite |
| AnchoredSearch.FeasibleCount | src/anchored_path.rs:390-431 | every feasible path has at least the computed minimum of intermediates and at most the available tracks, so the count loop skips no path |
| GapPlans.LaterGapsPay | src/multi_gap.rs:667-687 | in every good plan the later gaps add at least the repeat-spacing minimum of the remaining source |
| GapPlans.GoodPrefixStep | src/multi_gap.rs:683-718 | a plan prefix with one more gap is good exactly when the prefix is and the gap's tracks are a feasible path of the request the planner makes there |
| GapPlans.GoodPlanIsGoodPrefix | src/multi_gap.rs:401-505 | a good plan is a good prefix over all gaps together with a first source track that clears the history |
| GapPlans.HeadDecides | src/multi_gap.rs:401-505 | the only pairs the gap-by-gap search does not test are those between the history and the first source track |
| GapPlans.SourcePosition | src/multi_gap.rs:401-452 | each source track stands in the assembled route behind exactly the additions of the gaps before it |
| GapPlans.RoutedSourcesOfPlan | src/multi_gap.rs:414-422 | removing the additions from an assembled route gives the source back, in order |
| GapPlans.AssembleInjective | src/multi_gap.rs:780 | two plans over the same source with equal routes are the same plan, so removing duplicate routes loses no plan |
| GapPlans.GoodPrefixSeparates | src/multi_gap.rs:561-590 | the counts of any good prefix are an assignment that separates its repeating source pairs |
| GapPlans.PoolMeaning | src/multi_gap.rs:688-696 | the search at a gap may use exactly the gap's candidates that are neither source tracks nor already placed |
| MultiGap.PlanRepeatWindowRepair | src/multi_gap.rs:561-622 | a returned plan is a repeat-safe insertion of distinct non-source candidates with finite legs within the budget; when no limit drops anything in any budget tried it has the fewest additions of all such insertions and is best among those of that count, and failure means that none fits the budget; a request is refused for the first failed check and for nothing else; the gap that is blamed is the last, or the first when the spacing bound exceeds the budget; the ghost result says exactly whether a layer, an alternative or a beam entry was dropped (`RepairUncut`), and the result is the function `Repaired` of the problem |
| MultiGap.PlanFixedGapCount | src/multi_gap.rs:517-549 | the same with exactly the configured number of tracks, one to eight, in every gap; only what is dropped of that number counts as cut; a request is refused for the first failed check and for nothing else |
| MultiGap.PlanGlobal | src/multi_gap.rs:624-861 | for both addition policies, and whatever the limits, a returned plan is good and its state carries its true cost; when no limit drops anything at any gap, which the ghost result says exactly (`PlanUncut`), it beats every good plan the policy admits; the final proof fails only if the first source track conflicts with the history |
| MultiGap.OutcomeAnswers | src/multi_gap.rs:624-861 | the planner's answer, gap by gap, is judged against every good plan: sound for all limits, best or conclusive when uncut |
| MultiGap.GenerationCovers | src/multi_gap.rs:656-823 | uncut generations keep the prefix of every admissible insertion |
| MultiGap.GenerationIsGood | src/multi_gap.rs:656-823 | whatever the limits every retained state is a true plan prefix within the policy; generous limits cut no generation |
| MultiGap.GenerationDistinct | src/multi_gap.rs:779-796 | no two retained states spell the same route |
| MultiGap.RepairAnswers | src/multi_gap.rs:561-622 | trying budgets upwards from the spacing bound, the first that succeeds is the minimum when nothing was dropped |
| MultiGap.ExpandState | src/multi_gap.rs:681-769 | the successors of one state are good states of the next gap, and carry every target that passes through it when its search dropped nothing, which the ghost result says exactly |
| MultiGap.ExpandAll | src/multi_gap.rs:680-769 | the same for a whole generation |
| MultiGap.AdvanceSound | src/multi_gap.rs:736-766 | a feasible option turns a good state into a good state with the summed cost |
| MultiGap.TargetFitsCap | src/multi_gap.rs:682-687 | capping a gap at budget - added - suffix minimum discards no plan within the budget |
| MultiGap.CapReserves | src/multi_gap.rs:682-687 | a number of additions is searched for at a gap exactly when it is none or leaves the reserve of the later gaps inside the budget |
| MultiGap.StateKeepsLeast | src/multi_gap.rs:689-717 | gap searches never vary: of the paths of one count that an uncut gap search leaves out none comes before one it offers |
| MultiGap.ExpandedCarries | src/multi_gap.rs:681-769 | when the search is uncut every target plan that goes through a state goes on through one of its successors |
| MultiGap.GapRequestValid | src/anchored_path.rs:293-340 | the request made at a gap passes the path search's own checks, except that equal anchors are refused |
| MultiGap.FillPerCount | src/multi_gap.rs:788-794 | the bucket-filling loop gives each addition count its first states up to the beam width, joined by ascending count |
| MultiGap.RetainStates | src/multi_gap.rs:779-796 | the retained generation is the specified one, whose survivors BeamKeepsLeast and RetainKeepsPicks describe |
| MultiGap.RetainKeepsPicks | src/multi_gap.rs:779-796 | when the beam drops nothing every plan prefix survives sorting, de-duplication and bucketing |
| MultiGap.BeamKeepsLeast | src/multi_gap.rs:779-796 | whatever the beam drops comes no earlier than what it keeps, overall with a fixed count per gap and within each addition count otherwise |
| MultiGap.FinalProofNeverRejects | src/multi_gap.rs:401-505 | for every state the planner reaches, under either policy, the independent final proof accepts exactly when the first source track is clear of the history; with an empty history it never rejects |
| MultiGap.FinalProofMeaning | src/multi_gap.rs:401-505 | what the final proof establishes of any state, however found: the promised counts, the sources in order, distinct additions that are no sources, every window kept from the history on |
| MultiGap.KeepValidAllOrNothing | src/multi_gap.rs:825-828 | the final filter keeps all states or none |
| MultiGap.SelectIsWellChosen | src/multi_gap.rs:829-852 | the selected state has the fewest additions the policy allows, is least in order without variation, and is inside the worst-leg band with it |
| MultiGap.PoolSizeMeaning | src/multi_gap.rs:842-846 | the pool holds the best plan and, of the others as good, the requested percentage rounded down |
| MultiGap.PoolPassesExactly | src/multi_gap.rs:834-847 | every member of the selection pool passes the transition-sum test exactly when the pool is no longer than the leading run of states that pass it |
| MultiGap.VariedChoicePasses | src/multi_gap.rs:834-852 | the choice passes the transition-sum test for every seed exactly under that condition |
| MultiGap.EqualWorstLegsPass | src/multi_gap.rs:834-852 | the condition holds without variation, and whenever the whole worst-leg band shares its worst leg |
| PlanWitness.VariedPlanFailsTheSumTest | src/multi_gap.rs:834-852 | a request with one gap on which the planner returns a plan of sum 2 although a good plan has sum 1 and the better worst leg |
| PlanWitness.LimitLosesTheMinimum | src/multi_gap.rs:561-622 | a request that two additions would repair and for which, keeping one alternative a gap, the repair finds no plan for any maximum |
| PlanWitness.HistoryRejectsThePlan | src/multi_gap.rs:825-828 | a request whose only plan reaches the final proof and is turned away there, because the history repeats the first source track |
| PlanWitness.StepsMissTheAnchor | src/anchored_path.rs:455-481 | a path over its own right anchor, inside the track window, that passes every step test and fails the whole-route test |
| MultiGap.MinimumAfter | src/multi_gap.rs:667-676 | the reserve for later gaps is no more than any separating assignment of the remaining source needs |
| MultiGap.SpacingIsNecessary | src/multi_gap.rs:561-590 | a good plan has at least the repeat-spacing minimum of additions, so refusing a smaller budget refuses no plan |
| MultiGap.RoomySearch | src/multi_gap.rs:689-717 | generous planner limits make every inner search exhaustive |
| MultiGap.ValidationDecides | src/multi_gap.rs:279-399 | which request is refused and with which error, by conditions on the request alone: too few tracks or unmatched gaps, then the limits, then anchors off the source, then the first unknown track of source, history and candidates; every valid request passes |
| DurationMembership.FindMembershipsWithFilter | src/duration_membership.rs:43-110 | results are a prefix of the lexicographic list of all accepted duplicate-free memberships within the bounds; without the limit flag the list is complete (for a minimum of at least 1 ms); at minimum 0 only the empty membership is considered; for every node budget the results are exactly what the first visited nodes of the pruned tree deliver, the budget being spent unless the tree ends or the results are full (`BudgetSpent`), and the flag says exactly whether a node was left; a budget of at least the number of pairs the pruning rules leave alive never ends the search early |
| DurationMembership.VisitsMeaning | src/duration_membership.rs:78-108 | the tree is exactly the set of pairs of chosen ranks and next index that the pruning rules leave alive, stated over ranks, durations and suffix sums, each visited once |
| DurationMembership.BudgetCoversTree | src/duration_membership.rs:78-83 | a node budget that covers those pairs covers the tree |
| DurationMembership.LeaveUnfolds | src/duration_membership.rs:93-108 | leaving a node takes exactly that node off what the stack still unfolds to, the branch with the candidate before the branch without it |
| DurationMembership.TreeSize | src/duration_membership.rs:78-108 | the tree over n candidates has fewer than 2^(n+1) nodes |
| DurationMembership.Remaining | src/duration_membership.rs:72-75 | the suffix table bounds the duration any later selection can still add, saturation included |
| DurationMembership.DeduplicatedMeaning | src/duration_membership.rs:66-71 | exactly the first mention of each identifier with a positive duration is kept |
| DurationMembership.DeduplicatedKeepsOrder | src/duration_membership.rs:66-71 | the kept candidates stay in relevance order |
| DurationMembership.PruningIsAdmissible | src/duration_membership.rs:93-98 | a branch that has no candidate left, is full, or whose total with the (saturating) suffix sum stays below the minimum extends to no eligible membership |
| DurationMembership.OvershootIsFinal | src/duration_membership.rs:101-107 | a failed checked addition or a total above the maximum rules out every membership that includes the candidate |
| DurationMembership.EnterGood | src/duration_membership.rs:84-92 | entering a node records its membership exactly when it is eligible and keeps the enumeration order |
| DurationMembership.IncludeGood | src/duration_membership.rs:99-107 | pushing the exclude and include branches keeps every eligible membership either recorded or pending, in order |
| DurationMembership.ExcludeGood | src/duration_membership.rs:99-107 | pushing only the exclude branch does so too when nothing eligible includes the candidate |
| DurationMembership.DropGood | src/duration_membership.rs:93-98 | so does dropping a node below which nothing is eligible |
| DurationMembership.BeforeIsStrictOrder | src/duration_membership.rs:43-110 | the enumeration order, a membership before its extensions, is a strict total order |
| DurationMembership.IdsInjective | src/duration_membership.rs:85-87 | different selections of de-duplicated candidates have different identifiers, so the membership set suppresses no result |
| LocalSearch.ScoreCache.TransitionDistance | src/route.rs:585-611 | a lookup returns what an uncached computation would, although the key keeps only the last `seed_limit` prefix tracks and the candidate, and keeps the cache coherent |
| LocalSearch.LastTracksDecide | src/route.rs:593-607 | a leg is scored from the last `seed_limit` tracks before it, from all of them while there are fewer, and from nothing earlier |
| LocalSearch.RouteMetrics | src/route.rs:548-583 | metrics computed through any coherent cache are those of the pure definition; a missing leg is reported |
| LocalSearch.MetricsGrow | src/route.rs:548-583 | one more track adds the metric from the last `seed_limit` tracks before it to the sum, compares it with the worst leg, which counts double in the objective, and adds the distance from its target to the arc error |
| LocalSearch.MetricsOfOne | src/route.rs:548-583 | a single track has no legs |
| LocalSearch.RepeatViolations | src/route.rs:643-676 | the nested scan lists every pair inside the window of a shared identity, once per identity, and nothing else |
| LocalSearch.ViolationsAreCounted | src/route.rs:643-676 | a violation is listed exactly when its pair violates, and once, so the length that the search compares first counts the violating pairs by identity |
| LocalSearch.CleanRouteHasNoViolations | src/route.rs:643-676 | a route that keeps the windows counts no violations |
| LocalSearch.NoViolationsMeansSafe | src/route.rs:643-676 | a route that counts no violations keeps the windows between every pair |
| LocalSearch.ConsiderNeighbour | src/route.rs:518-546 | the incumbent after a neighbour is the neighbour exactly when it precedes by violations or by score beyond epsilon, or ties within epsilon and is lexicographically earlier |
| LocalSearch.ConsideringDrifts | src/route.rs:534-545 | one consideration raises the incumbent score by at most epsilon and never its violations |
| LocalSearch.ReversalPass | src/route.rs:471-487 | every reversal has been considered, and the incumbent is no worse than any of them beyond the accumulated ties |
| LocalSearch.RelocationPass | src/route.rs:488-507 | the same for every relocation that changes the route, without losing the reversals |
| LocalSearch.ImproveRoute | src/route.rs:446-515 | terminates for non-negative distances; keeps the multiset of tracks; on return no reversal or relocation has fewer violations and none with equal violations beats the score by more than (N+1) epsilon for N neighbours; the result is the start or strictly better than it; no result only when a leg is missing on the way; the result is the function `Improved`, pass after pass the last incumbent over all reversals and then all relocations in order |
| LocalSearch.ImprovedPrecedes | src/route.rs:509-513 | the search ends where it started, with fewer violations, or with as many and a score better by more than epsilon |
| LocalSearch.NoReversalBeats | src/route.rs:471-487 | turning any stretch of the result around gives no fewer violations and, with as many, no objective and weighted arc error better by more than the drift bound |
| LocalSearch.NoRelocationBeats | src/route.rs:488-507 | nor does moving any one track later or earlier |
| LocalSearch.PrecedingShrinks | src/route.rs:390-393 | an accepted pass lowers the termination measure of violations and score in units of epsilon |
| LocalSearch.StopIsOptimal | src/route.rs:509-513 | stopping implies the local optimality bound, epsilon-tie drift included |
| LocalSearch.ReversalKeepsTracks | src/route.rs:473-475 | a reversal is a permutation of the route |
| LocalSearch.RelocationKeepsTracks | src/route.rs:489-495 | a relocation is a permutation of the route |
| EvolvingRoute.SelectAutomatic | src/preview.rs:937-1037 | automatic insertion is a run of the stepwise picks; it keeps the original as a subsequence, distinct membership, every artist and album window, at most one addition per gap and the total budget; every inserted track is a candidate of its gap, stands between the gap's anchors and was acceptable on the route of that moment (`Acceptable`: new, clear of every window, both legs inside the leg percentile and together inside the detour percentile); a gap that cannot be found is reported, and none is when the gaps are neighbours in a distinct original |
| EvolvingRoute.RunInserts | src/preview.rs:966-1012 | the same of every insertion of any run |
| EvolvingRoute.AcceptanceMeaning | src/bridge.rs:533-548 | an evaluation is accepted exactly when the track is new to the route, clear of every artist and album at the distances it would have, and within both percentile limits |
| EvolvingRoute.OrderedGapsAscend | src/preview.rs:938-939 | gaps are taken in the order of their original positions, none lost |
| EvolvingRoute.RankVaries | src/preview.rs:857-866 | seeded variation reorders the pool of leading accepted candidates by the seeded key and leaves the rest of the ranking as it is |
| EvolvingRoute.AcceptedLead | src/preview.rs:845-856 | every accepted candidate is ranked before every other |
| EvolvingRoute.VariedPoolMeaning | src/preview.rs:717-724 | the pool holds the requested floor and, of the rest up to 32, the requested percentage rounded down |
| EvolvingRoute.RunKeeps | src/preview.rs:937-1037 | all of that for any run of accepted picks |
| EvolvingRoute.InsertKeepsClean | src/bridge.rs:533-538 | inserting a track that is safe where it lands never shortens a distance: the grown route keeps every window |
| EvolvingRoute.RoutePosition | src/preview.rs:690-695 | the position found is the first one between the gap's two anchors, and none is found exactly when they are never neighbours |
| EvolvingRoute.GapsStay | src/preview.rs:946-947 | insertions into earlier gaps leave the anchors of every later gap neighbours, so it is still found |
| EvolvingRoute.RankMembers | src/preview.rs:797-868 | ranking reorders the evaluations of the candidates and never invents one |
| EvolvingRoute.AutomaticPickMeaning | src/preview.rs:966-1012 | a gap receives a track exactly when the budget, the difficulty test and an acceptable candidate allow it whose legs, the longer counted three times, stay below three times the direct distance |
| EvolvingRoute.AutomaticPickIsLeast | src/preview.rs:845-856 | without variation no such candidate comes before the pick by guidance, then worse leg percentile, then detour, then index |
| EvolvingRoute.SelectExactCount | src/preview.rs:2281-2480 | exact-count search returns a run with exactly the requested additions; when neither limit drops anything, which the ghost result says exactly (`ExactUncutTo`), no such run has a smaller objective, nor an equal one and an earlier route; cut or not, the result is the best of the final states by objective and route, and none is returned only if none of them has the count; every final state has the requested count whatever the beam; it is refused exactly when a limit is zero, and given up exactly when some state has lost a gap, the first of which is named |
| EvolvingRoute.ExactBeamKeepsLeast | src/preview.rs:2426-2440 | of one addition count the beam keeps no state with a larger objective than one it drops, nor an equal one and a later route, and drops none before it is full |
| EvolvingRoute.ExactBeamPrefers | src/preview.rs:2426-2440 | the same over routes and the objective function, for the states of any generation |
| EvolvingRoute.LimitKeepsFirst | src/preview.rs:2376-2380 | an accepted candidate is left out only when the candidate limit is full of accepted candidates ranked before it |
| EvolvingRoute.SelectExactIsBest | src/preview.rs:2444-2465 | the selected final state has the smallest objective of its count and, among equals, the earliest route |
| EvolvingRoute.StructuralBoundIsNecessary | src/preview.rs:2303-2311 | no run adds more than the structural bound |
| EvolvingRoute.StructuralBoundMeaning | src/preview.rs:2303-2309 | the bound is the smaller of the number of gaps and the number of different candidates over all gaps |
| EvolvingRoute.TargetContinues | src/preview.rs:2338-2410 | the next gap of every run that reaches the count is among the children of the state it passes: a dropped skip branch could never have reached it |
| EvolvingRoute.ChildrenSound | src/preview.rs:2338-2410 | every child is a permitted skip or the insertion of an accepted candidate |
| EvolvingRoute.ChildrenComplete | src/preview.rs:2338-2410 | every takeable track is a child when the candidate limit covers the accepted ones |
| EvolvingRoute.ExpandExact | src/preview.rs:2329-2413 | one gap keeps soundness for a whole generation and, when the candidate limit leaves nothing out, which the ghost result says exactly, every run to the count; a lost gap is reported exactly when some state has lost it |
| EvolvingRoute.ExactGenerationCovers | src/preview.rs:2329-2441 | uncut generations are passed by every run to the count |
| EvolvingRoute.RetainExactCovers | src/preview.rs:2415-2441 | sorting, removing equal routes and an uncut beam per count lose no such run |
| DestinationSearch.SelectDestinationBlockRoutes | src/preview.rs:1618-1906 | every option is lead, outward bridges, the block whole and in order, return bridges, rejoin, with distinct offered bridges within the shared budget, repeat-safe against everything including history; the options are the best of each count among all combinations of the two searches; without variation and uncut they are the best of exactly the least ways in and back that pass the checks (`BestChosen`), and where nothing is trimmed either every good route is matched; nothing is returned for a request the preflight rejects; an inconsistent request, one over eight bridges and one without limits are refused, and nothing else is unless a path search refuses, which no sound request meets (`RefusedRightly`, `Sound`); the ghost results say exactly whether a limit was felt |
| DestinationSearch.SoundIsServed | src/preview.rs:1641-1713 | a consistent request within the limits is not refused when variation is at most a hundred, anchors differ and all tracks are known |
| DestinationSearch.OptionsAreChosen | src/preview.rs:1676-1875 | without variation and uncut, a combination is found exactly when it is the least way in of its count, then the least way back of its count, and the finished route passes the checks |
| DestinationSearch.CountIsOffered | src/preview.rs:1686-1745 | without a rejoin anchor a count has an option exactly when the least feasible way in of that count passes the two final checks |
| DestinationSearch.BestAreChosen | src/preview.rs:1879-1905 | the options returned are the best of what can be chosen, count by count |
| DestinationSearch.ReturnOptions | src/preview.rs:1747-1872 | the ways back from one outward route: each combination kept is good; where the return search drops and trims nothing every good combination is kept |
| DestinationSearch.OptionsByCover | src/preview.rs:1747-1872 | untrimmed and uncut, one way in leads to every good route that enters so |
| DestinationForecast.MatchedExactly | src/preview.rs:1686-1745 | without a rejoin anchor every good route is matched by worst leg and sum exactly when, wherever a good route exists, the least way in of its length passes the final checks |
| DestinationForecast.NothingIsMissed | src/preview.rs:1618-1906 | a condition on the request alone: if outward candidates cannot repeat a later block track, the rejoin anchor or a return candidate at the nearest distance, and the boundaries share no candidate, every good route is matched by an option of its count with no greater worst leg and, without a rejoin anchor, by worst leg and sum |
| DestinationForecast.WaysPass | src/preview.rs:1562-1616 | under that condition bridges safe on their own boundary pass both checks on the finished route |
| DestinationForecast.BackStaysSafe | src/preview.rs:1747-1782 | under that condition a way back that fits one way in fits every other of its length |
| DestinationForecast.BlockStaysClear | src/preview.rs:1588-1616 | a block clear of its context stays clear when the way in is exchanged for another of its length |
| DestinationWitness.KeptBridgeRepeatsTheBlock | src/preview.rs:1666-1713 | a request on which, for all covering limits, the planner returns nothing although a good route exists: the bridge kept as the better one repeats a block track after the first, which only the finished route shows |
| DestinationWitness.LeastWaysMissTheSum | src/preview.rs:1879-1905 | with a rejoin anchor a good route can have the same worst leg as everything the planner can choose, and a smaller sum |
| DestinationBlock.BridgeRoutes | src/preview.rs:1444-1530 | the bridges into one boundary are feasible paths, without variation and uncut the least of each count, all of them when nothing is trimmed; the ghost results say exactly whether a limit was felt; the refusal is the first failed check |
| DestinationBlock.BridgeRefusalMeaning | src/preview.rs:1456-1480 | which bridge search is refused and why, by the request alone, in the order of the checks |
| DestinationBlock.TwoBoundariesAreGood | src/preview.rs:1784-1872 | a way in and a way back that pass the two final checks make a good route: shared budget, both boundary costs, rejoin clear of block and bridges |
| DestinationBlock.OneBoundaryIsGood | src/preview.rs:1686-1745 | the same without a rejoin anchor |
| DestinationBlock.OutwardIsFeasible | src/preview.rs:1666-1675 | the way into the block of every good route is a path the outward search is looking for |
| DestinationBlock.ReturnIsFeasible | src/preview.rs:1747-1782 | its way back is a path the return search is looking for, with the exempt prefix and the narrowed candidates |
| DestinationBlock.BridgesClear | src/preview.rs:1562-1586 | bridges checked on the finished route are clear of all before them, of each other and of what follows |
| DestinationBlock.ContextCheckMeaning | src/preview.rs:1588-1616 | with distinct owned originals the context check is exactly the clearance of every block track from everything before the block |
| DestinationBlock.BlockIsFound | src/preview.rs:1596-1600 | the first occurrence of the block's first track is where the block stands |
| DestinationBlock.BlockCheckMeaning | src/preview.rs:1588-1616 | for any route the check passes exactly when the block's first track is on it and every block track clears all that comes before its first occurrence |
| DestinationSearch.BestByCount | src/preview.rs:1879-1905 | one option a count, ascending, each at least as good by (worst leg, sum, route) as every option of its count |
| DestinationBlock.OptionOrderMeaning | src/preview.rs:1881-1899 | options of one count are compared by worst leg, then sum, then route |
| DestinationBlock.DestinationRequirement | src/main.rs:360-411 | the loop computes the largest shortfall per identity over the context |
| DestinationBlock.RequirementIsExact | src/main.rs:350-411 | n intermediates meet the requirement exactly when every context track clears the destination behind them |
| DestinationBlock.Preflight | src/main.rs:475-529 | the request is rejected, with the minimum, exactly when the outward and rejoin minima exceed the available intermediates |
| DestinationBlock.PreflightIsExact | src/main.rs:475-529 | the outward and rejoin minima are exactly the least numbers of bridges at which every block track clears the context and the rejoin clears the block |
| DestinationBlock.PreflightIsNecessary | src/main.rs:475-529 | no route of the planner uses fewer bridges than the preflight minimum |
| DestinationSearch.RejectedRequestHasNoOption | src/main.rs:520-529 | a rejected request has no planner route |
| Capacity.AcceptMembership | src/main.rs:4066-4088 | a duration membership is accepted exactly when every counted key is within ceil(N/(w+1)) |
| Capacity.SpacedFits | src/main.rs:4068-4077 | marks kept more than w apart in a sequence of N number at most ceil(N/(w+1)) |
| Capacity.CapacityIsReached | src/main.rs:4068-4077 | ceil(N/(w+1)) marks can be placed more than w apart in N places, so no smaller capacity would be a necessary condition |
| Capacity.FilterOnRoutable | src/main.rs:4066-4088 | for a membership with a clean ordering the filter accepts exactly when no key is counted beyond its capacity without standing for a repeat: an empty album, a key named twice by a track, or a key met both as a repeat key and as a plain artist |
| Capacity.FilterIsNecessary | src/main.rs:4066-4088 | with album keys present and either all tracks or none carrying duplicate-free artist keys, the filter rejects no membership that has a clean ordering |
| Capacity.TallyIgnoresOrder | src/main.rs:4079-4085 | the counts do not depend on the order of the members |
| Capacity.AlbumFits | src/main.rs:4084-4087 | no clean ordering holds more tracks of one named album than its capacity |
| Capacity.ArtistFits | src/main.rs:4081-4086 | no clean ordering holds more tracks that pairwise share an artist key than its capacity |
| Capacity.EmptyAlbumsAreCounted | src/main.rs:4084 | two tracks without album are routable side by side and are turned away |
| Capacity.RepeatedKeysAreCounted | src/route.rs:52-65 | one track that names an artist key twice is turned away on its own |
| Capacity.MixedKeysAreCounted | src/route.rs:40-65 | a track with keys and one without share no identity, yet count together and are turned away |
| Capacity.SelectAdditions | src/main.rs:4132-4240 | the running counts select exactly the greedy additions in relevance order; the source alone being over capacity, or too few additions, is reported; an order that the filter accepts is selected whole |
| Capacity.AcceptedIsTakenWhole | src/main.rs:4132-4240 | a duration membership that the filter accepts is taken whole, whatever the relevance order of its additions |
| Capacity.GreedyMeaning | src/main.rs:4166-4240 | additions come from the order and stay within capacity when candidates name their keys once; if the request is not filled every candidate left is blocked |
| Capacity.FitsGrows | src/main.rs:4178-4224 | adding an unblocked track keeps every key within capacity |
| Capacity.BlockedStays | src/main.rs:4178-4200 | a blocked candidate stays blocked as members are added, so passing over it once is final |

## Left out

- MultiGap.PlanRepeatWindowRepair: minimality and "none fits the budget" are stated for runs in which no candidate, beam or alternative limit dropped anything, because the source's search may then miss plans (`PlanWitness.LimitLosesTheMinimum`); soundness holds for every run.
- AnchoredSearch.Search: with variation and several alternatives per count the contract states only soundness, distinctness and an answered count, because the source bounds the first choice only by its pool; which complete paths are kept is `AnchoredSearch.ChooseVaries`.
- DestinationSearch.SelectDestinationBlockRoutes: with variation, what is offered is characterised only by soundness and, where nothing is trimmed, completeness.
- DestinationForecast.NothingIsMissed: with a rejoin anchor the match is by worst leg alone, because the least ways need not have the least sum (`DestinationWitness.LeastWaysMissTheSum`).
- Capacity.FilterIsNecessary: stated for uniform duplicate-free keys with albums present; `Capacity.FilterOnRoutable` covers all other memberships exactly.
- EvolvingRoute.SelectExactCount: `variation_percent` is at most 100, as request validation elsewhere ensures; the same holds for automatic insertion.
- Acoustic features, learned matrices, percentiles and adaptive scoring: distances, percentiles and objectives are arbitrary functions.
- Scoring failures in bridge ranking are not modelled; in local search a missing leg ends the search.
- Floating-point rounding, NaN and total ordering of floats: costs are reals, a non-finite score is a missing leg.
- `usize` is unbounded; `u64` with saturation and checked addition is explicit where durations are summed.
- Seeded mixing of paths and restarts: any fixed key, no claim about its distribution.
- Threads, progress events, search statistics: parallel batches are read in index order, as the source collects them.
- Guidance providers, semantic pools and guided ranking: guidance is a number per candidate or an arbitrary ranking key.
- Decision records and reconstructed evaluations beside a route.
- Opening and closing endpoints, and exact-count search with several tracks per gap.
- The greedy construction, restarts and arc objectives around the local search.
- Request parsing and identity normalisation: keys are compared as they stand, and preflight works on the planner's own track identities.
- Early exits of the preflight for requests of another shape.
- Destination options carry the summed costs of the two searches; the source reads the same legs again from the finished route.
- The gap anchors stored beside each selected gap of a plan are fixed by its position and not kept in the model's picks.
- The score cache keys on the seed tracks as a sequence; hashing is not modelled.
