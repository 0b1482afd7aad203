/** Source routes on which the planner falls short of what its limits and
    tests suggest. */
module PlanWitness {
  import opened Wrappers
  import opened Repeats
  import opened RepeatSpacing
  import opened Ordering
  import opened AnchoredPath
  import opened AnchoredSearch
  import opened GapPlans
  import opened MultiGap

  /** Tracks without any repeat identity. */
  function Blank(count: nat): Policy {
    Policy(seq(count, _ => Track("", [], "")), 0, 0, 0)
  }

  lemma BlankNeverClose(count: nat)
    ensures forall a, b, distance :: !TooClose(Blank(count), a, b, distance)
  {
  }

  lemma NeverCloseSafeFrom(p: Policy, route: seq<nat>, from: nat)
    requires forall a, b, distance :: !TooClose(p, a, b, distance)
    ensures SafeFrom(p, route, from)
  {
    hide TooClose;
  }

  lemma OnePick(q: Problem, pick: seq<nat>)
    requires |q.source| >= 2
    ensures Flatten([pick]) == pick && Assemble(q.source, [pick]) == [q.source[0]] + pick + [q.source[1]]
    ensures PlanCost(q, [pick]) == AddCosts(Some(Cost(0.0, 0.0)),
                                            WalkCost(q.score, [q.source[0]], pick + [q.source[1]]))
  {
    hide WalkCost;
    var none: seq<seq<nat>> := [pick][..0];
    assert none == [];
  }

  // ----- a varied choice that fails the sum test -----

  function BandLeg(a: nat, b: nat): Option<Distance> {
    if a == 0 && b == 2 then Some(1.0)
    else if a == 2 && b == 1 then Some(0.0)
    else if a == 0 && b == 3 then Some(1.01)
    else if a == 3 && b == 1 then Some(0.99)
    else if a == 0 && b == 4 then Some(1.02)
    else if a == 4 && b == 1 then Some(0.0)
    else None
  }

  /** One gap, three candidates, one addition; the seed prefers the route over 3. */
  function BandProblem(): Problem {
    Problem([0, 1], [], [Gap(0, 1, [Candidate(2, 0.0), Candidate(3, 0.0), Candidate(4, 0.0)])], Blank(5),
            Limits(3, 4, 3, 100), FixedAdjacent(BandLeg), Preferring([0, 3, 1]))
  }

  const ONE_EACH := ExactPerGap(1)

  function BandCost(x: nat): Cost {
    if x == 2 then Cost(1.0, 1.0) else if x == 3 then Cost(2.0, 1.01) else Cost(1.02, 1.02)
  }

  lemma BandValid()
    ensures ValidProblem(BandProblem()) && HeadClear(BandProblem())
  {
    var gaps := BandProblem().gaps;
    assert gaps[1..] == [] && CandidateTracks(gaps[0].candidates) == [2, 3, 4];
    assert AllCandidates(gaps) == [2, 3, 4] + [];
  }

  lemma BandPlan(x: nat)
    requires 2 <= x <= 4
    ensures PlanCost(BandProblem(), [[x]]) == Some(BandCost(x)) && Assemble([0, 1], [[x]]) == [0, x, 1]
    ensures Target(BandProblem(), ONE_EACH, [[x]]) && GoodPlan(BandProblem(), [[x]])
  {
    hide WalkCost, TooClose, SafeFrom;
    var q := BandProblem();
    OnePick(q, [x]);
    TwoLegs(q.score, [0], x, 1);
    assert [x] + [1] == [x, 1] && [0] + [x] + [1] == [0, x, 1];
    BlankNeverClose(5);
    NeverCloseSafeFrom(q.policy, q.history + [0, x, 1], 0);
    NeverCloseSafeFrom(q.policy, q.history + [0, x, 1], 1);
    assert q.gaps[0].candidates[x - 2].track == x;
  }

  /** What a retained state is. */
  lemma BandState(s: GlobalState)
    requires GoodState(BandProblem(), ONE_EACH, 1, s)
    ensures exists x :: 2 <= x <= 4 && s.route == [0, x, 1] && s.picks == [[x]] && StateLegs(s) == BandCost(x)
  {
    hide WalkCost, SafeFrom, PlanCost, Assemble, PlanGuidance;
    var q := BandProblem();
    var x := s.picks[0][0];
    assert NamedByGap(q.gaps[0], s.picks[0]);
    assert s.picks[0] == [x] && s.picks == [[x]];
    BandPlan(x);
  }

  lemma BandRoomy()
    ensures Roomy(BandProblem(), 1) && AnchorsDiffer(BandProblem(), 1)
  {
    var q := BandProblem();
    assert q.gaps[1..] == [];
    assert MostCandidates(q.gaps) == 3;
    assert Power(3, 1) == 3 && Geometric(3, 0) == 1;
    assert Geometric(3, 1) == 4 && Power(4, 1) == 4;
  }

  /** The retained states are those of the three routes. */
  lemma BandGeneration()
    ensures WellFormed(BandProblem())
    ensures var states := Generation(BandProblem(), ONE_EACH, 1);
            && AllGoodStates(BandProblem(), ONE_EACH, 1, states) && DistinctBy(states, RouteOf)
            && (forall x | 2 <= x <= 4 :: HasBy(states, RouteOf, [0, x, 1]))
  {
    hide Generation, GoodState, Roomy, GapUncut, Target, GoodPlan, PlanCost, Assemble, ValidProblem;
    var q := BandProblem();
    BandValid();
    WellFormedSize(q);
    BandRoomy();
    GenerationIsGood(q, ONE_EACH, 1);
    GenerationDistinct(q, ONE_EACH, 1);
    GenerationCovers(q, ONE_EACH, 1);
    var states := Generation(q, ONE_EACH, 1);
    forall x | 2 <= x <= 4 ensures HasBy(states, RouteOf, [0, x, 1]) {
      BandPlan(x);
      var picks: seq<seq<nat>> := [[x]];
      assert picks[..1] == picks;
      assert HasPicks(states, picks[..1]);
      var s :| s in states && s.picks == picks;
      BandState(s);
    }
  }

  /** Three different routes, by worst leg, and nothing else. */
  lemma ThreeInOrder(states: seq<GlobalState>, key: GlobalState -> Key, a: seq<nat>, b: seq<nat>, c: seq<nat>)
    requires SortedBy(states, key) && DistinctBy(states, RouteOf)
    requires HasBy(states, RouteOf, a) && HasBy(states, RouteOf, b) && HasBy(states, RouteOf, c)
    requires forall s | s in states :: s.route == a || s.route == b || s.route == c
    requires forall s, t | s in states && t in states && s.route == a && t.route == b :: !KeyLe(key(t), key(s))
    requires forall s, t | s in states && t in states && s.route == b && t.route == c :: !KeyLe(key(t), key(s))
    ensures |states| == 3 && states[0].route == a && states[1].route == b && states[2].route == c
  {
    hide KeyLe;
    var sa :| sa in states && RouteOf(sa) == a;
    var sb :| sb in states && RouteOf(sb) == b;
    var sc :| sc in states && RouteOf(sc) == c;
    var i :| 0 <= i < |states| && states[i] == sa;
    var j :| 0 <= j < |states| && states[j] == sb;
    var k :| 0 <= k < |states| && states[k] == sc;
    assert i < j < k;
    OneOfThree(states, a, b, c, i, j, k, 0);
    OneOfThree(states, a, b, c, i, j, k, 1);
    OneOfThree(states, a, b, c, i, j, k, 2);
    if |states| > 3 {
      OneOfThree(states, a, b, c, i, j, k, 3);
    }
  }

  lemma OneOfThree(states: seq<GlobalState>, a: seq<nat>, b: seq<nat>, c: seq<nat>, i: nat, j: nat, k: nat, m: nat)
    requires DistinctBy(states, RouteOf) && i < |states| && j < |states| && k < |states| && m < |states|
    requires states[i].route == a && states[j].route == b && states[k].route == c
    requires forall s | s in states :: s.route == a || s.route == b || s.route == c
    ensures m == i || m == j || m == k
  {
    assert states[m] in states;
    var n := if states[m].route == a then i else if states[m].route == b then j else k;
    assert RouteOf(states[m]) == RouteOf(states[n]);
  }

  /** The competing states are sorted, distinct and those retained. */
  lemma BandEquals()
    ensures WellFormed(BandProblem()) && Generation(BandProblem(), ONE_EACH, 1) != []
    ensures var states := Generation(BandProblem(), ONE_EACH, 1);
            var equal := Equals(ONE_EACH, states);
            && SortedBy(equal, (s: GlobalState) => StateKey(ONE_EACH, s)) && DistinctBy(equal, RouteOf)
            && AllGoodStates(BandProblem(), ONE_EACH, 1, equal)
            && (forall x | 2 <= x <= 4 :: HasBy(equal, RouteOf, [0, x, 1]))
  {
    hide Generation, GoodState, SortBy, KeyLe;
    BandGeneration();
    var states := Generation(BandProblem(), ONE_EACH, 1);
    assert HasBy(states, RouteOf, [0, 2, 1]);
    SortByMembers(states, (s: GlobalState) => StateKey(ONE_EACH, s));
    EqualsSorted(ONE_EACH, states);
    EqualsDistinct(ONE_EACH, states);
    var equal := Equals(ONE_EACH, states);
    assert forall s :: s in equal <==> s in states;
    forall x | 2 <= x <= 4 ensures HasBy(equal, RouteOf, [0, x, 1]) {
      var s :| s in states && RouteOf(s) == [0, x, 1];
      assert s in equal;
    }
  }

  lemma BandKey(s: GlobalState, x: nat)
    requires GoodState(BandProblem(), ONE_EACH, 1, s) && 2 <= x <= 4
    ensures s.route == [0, x, 1] ==> StateLegs(s) == BandCost(x)
    ensures s.route == [0, 2, 1] || s.route == [0, 3, 1] || s.route == [0, 4, 1]
  {
    hide GoodState;
    BandState(s);
    var y :| 2 <= y <= 4 && s.route == [0, y, 1] && StateLegs(s) == BandCost(y);
    assert s.route[1] == y;
  }

  /** The competing states are the three routes in order of worst leg. */
  lemma BandOrder()
    ensures WellFormed(BandProblem())
    ensures var states := Generation(BandProblem(), ONE_EACH, 1);
            && states != []
            && var equal := Equals(ONE_EACH, states);
               && CostsOf(equal, StateLegs) == [Cost(1.0, 1.0), Cost(2.0, 1.01), Cost(1.02, 1.02)]
               && equal[1].route == [0, 3, 1]
  {
    hide Generation, GoodState, Equals, LexLe;
    BandEquals();
    var equal := Equals(ONE_EACH, Generation(BandProblem(), ONE_EACH, 1));
    BandThree(equal);
  }

  lemma BandThree(equal: seq<GlobalState>)
    requires SortedBy(equal, (s: GlobalState) => StateKey(ONE_EACH, s)) && DistinctBy(equal, RouteOf)
    requires AllGoodStates(BandProblem(), ONE_EACH, 1, equal)
    requires forall x | 2 <= x <= 4 :: HasBy(equal, RouteOf, [0, x, 1])
    ensures CostsOf(equal, StateLegs) == [Cost(1.0, 1.0), Cost(2.0, 1.01), Cost(1.02, 1.02)]
    ensures equal[1].route == [0, 3, 1]
  {
    hide GoodState, KeyLe, SortedBy, DistinctBy, StateKey;
    var key := (s: GlobalState) => StateKey(ONE_EACH, s);
    forall s | s in equal ensures s.route == [0, 2, 1] || s.route == [0, 3, 1] || s.route == [0, 4, 1] {
      BandKey(s, 2);
    }
    forall s, t, x | s in equal && t in equal && 2 <= x < 4 && s.route == [0, x, 1] && t.route == [0, x + 1, 1]
      ensures !KeyLe(key(t), key(s))
    {
      BandBefore(s, t, x);
    }
    assert HasBy(equal, RouteOf, [0, 2, 1]) && HasBy(equal, RouteOf, [0, 3, 1]) && HasBy(equal, RouteOf, [0, 4, 1]);
    ThreeInOrder(equal, key, [0, 2, 1], [0, 3, 1], [0, 4, 1]);
    assert equal[0] in equal && equal[1] in equal && equal[2] in equal;
    BandKey(equal[0], 2);
    BandKey(equal[1], 3);
    BandKey(equal[2], 4);
  }

  lemma BandBefore(s: GlobalState, t: GlobalState, x: nat)
    requires GoodState(BandProblem(), ONE_EACH, 1, s) && GoodState(BandProblem(), ONE_EACH, 1, t) && 2 <= x < 4
    requires s.route == [0, x, 1] && t.route == [0, x + 1, 1]
    ensures !KeyLe(StateKey(ONE_EACH, t), StateKey(ONE_EACH, s))
  {
    hide GoodState;
    BandKey(s, x);
    BandKey(t, x + 1);
  }

  /** The quality count is two: the cheapest route and the dearest one pass the
      sum test, so the pool is the cheapest and the one between them. */
  lemma BandQuality()
    ensures var costs := [Cost(1.0, 1.0), Cost(2.0, 1.01), Cost(1.02, 1.02)];
            && PoolSize(QualityCount(costs), 100) == 2
            && SumRun(costs, SumLimit(costs[0].sum)) == 1
  {
    var costs := [Cost(1.0, 1.0), Cost(2.0, 1.01), Cost(1.02, 1.02)];
    assert costs[1..] == [Cost(2.0, 1.01), Cost(1.02, 1.02)] && costs[1..][1..] == [Cost(1.02, 1.02)];
    assert WorstBand([Cost(1.02, 1.02)], WorstLimit(1.0)) == 1;
    assert WorstBand(costs[1..], WorstLimit(1.0)) == 2;
    assert WorstBand(costs, WorstLimit(1.0)) == 3 && costs[..3] == costs;
    assert CountWithinSum([Cost(1.02, 1.02)], SumLimit(1.0)) == 1;
    assert CountWithinSum(costs[1..], SumLimit(1.0)) == 1;
    assert CountWithinSum(costs, SumLimit(1.0)) == 2;
    assert Share(1, 100) == 1;
  }

  /** The planner's answer has twice the sum of a good plan that has also the
      better worst leg: membership in the pool says nothing about the sum. */
  lemma VariedPlanFailsTheSumTest()
    ensures ValidProblem(BandProblem()) && WellFormed(BandProblem())
    ensures var plan := Outcome(BandProblem(), ONE_EACH, 0);
            && plan.Planned? && plan.plan.sum == 2.0 && plan.plan.sum > SumLimit(1.0)
            && GoodPlan(BandProblem(), [[2]]) && PlanCost(BandProblem(), [[2]]) == Some(Cost(1.0, 1.0))
  {
    hide Generation, GoodPlan, PlanCost, SelectState, Equals, QualityCount, PoolSize, SumRun, KeepValid, HeadClear,
      ValidProblem;
    var q := BandProblem();
    BandValid();
    WellFormedSize(q);
    BandPlan(2);
    BandGeneration();
    BandOrder();
    BandQuality();
    var states := Generation(q, ONE_EACH, 1);
    var equal := Equals(ONE_EACH, states);
    SeedSelects(q, ONE_EACH, states, 1);
    KeepValidAllOrNothing(q, ONE_EACH, 0, states);
    assert Outcome(q, ONE_EACH, 0) == OutcomeFrom(q, ONE_EACH, 0, 1);
    assert CostsOf(equal, StateLegs)[1] == Cost(2.0, 1.01);
  }

  // ----- a history that conflicts with the head of the route -----

  /** Track 2 shares its artist with the first source track. */
  function HeadProblem(): Problem {
    Problem([0, 1], [2], [Gap(0, 1, [])], ByArtist(["a", "b", "a"], 1), Limits(1, 1, 1, 0),
            FixedAdjacent((a: nat, b: nat) => Some(1.0)), _ => 0)
  }

  lemma HeadPairs(a: nat, b: nat, distance: nat)
    requires a < 3 && b < 3
    ensures TooClose(HeadProblem().policy, a, b, distance) <==> distance <= 1 && (a == b || a + b == 2)
  {
    var keys := ["a", "b", "a"];
    assert forall k | k in keys :: |k| == 1;
    ByArtistRepeats(keys, 1, a, b, distance);
  }

  lemma HeadSafe()
    ensures SafeFrom(HeadProblem().policy, [2, 0, 1], 2) && !HeadClear(HeadProblem())
  {
    hide TooClose;
    HeadPairs(2, 0, 1);
    HeadPairs(2, 1, 2);
    HeadPairs(0, 1, 1);
    assert HeadProblem().history[0] == 2;
  }

  lemma HeadValid()
    ensures ValidProblem(HeadProblem())
  {
    assert HeadProblem().gaps[1..] == [];
    assert AllCandidates(HeadProblem().gaps) == [] + [];
  }

  lemma HeadRoute()
    ensures PlanCost(HeadProblem(), [[]]).Some? && Flatten([[]]) == [] && Assemble([0, 1], [[]]) == [0, 1]
  {
    hide WalkCost;
    OnePick(HeadProblem(), []);
    OneLeg(HeadProblem().score, [0], 1);
    assert [] + [1] == [1] && [0] + [] + [1] == [0, 1];
  }

  lemma HeadTarget()
    ensures Target(HeadProblem(), MinimumTotal(0), [[]])
  {
    hide SafeFrom, PlanCost, Assemble, Flatten, HeadClear, ValidProblem;
    var q := HeadProblem();
    var picks: seq<seq<nat>> := [[]];
    HeadRoute();
    assert q.history + [0, 1] == [2, 0, 1];
    HeadSafe();
  }

  lemma HeadRoomy()
    ensures Roomy(HeadProblem(), 0) && AnchorsDiffer(HeadProblem(), 1)
  {
    var q := HeadProblem();
    assert q.gaps[1..] == [];
    assert MostCandidates(q.gaps) == 0 && Power(0, 0) == 1 && Geometric(0, 0) == 1 && Power(1, 1) == 1;
  }

  /** The search finds a plan, and the final proof turns it away. */
  lemma HistoryRejectsThePlan()
    ensures ValidProblem(HeadProblem()) && WellFormed(HeadProblem())
    ensures Generation(HeadProblem(), MinimumTotal(0), 1) != []
    ensures Outcome(HeadProblem(), MinimumTotal(0), 0) == Failed(FinalRouteInvalid)
  {
    hide Generation, GoodState, Roomy, Target, ValidProblem, KeepValid, HeadClear, SelectState, GapUncut;
    var q, policy := HeadProblem(), MinimumTotal(0);
    HeadValid();
    HeadSafe();
    HeadTarget();
    WellFormedSize(q);
    HeadRoomy();
    GenerationIsGood(q, policy, 1);
    GenerationCovers(q, policy, 1);
    var picks: seq<seq<nat>> := [[]];
    assert HasPicks(Generation(q, policy, 1), picks[..1]);
    KeepValidAllOrNothing(q, policy, 0, Generation(q, policy, 1));
    assert Outcome(q, policy, 0) == OutcomeFrom(q, policy, 0, 1);
  }

  // ----- a right anchor that is itself a candidate -----

  /** The path goes over its own right anchor, inside the track window. */
  function SelfRequest(): Request {
    Request([0], [], [0], 0, 1, [Candidate(1, 0.0)], Policy([Track("", [], ""), Track("", [], "")], 0, 0, 1),
            Config(1, 1, 1, 1, 0), FixedAdjacent((a: nat, b: nat) => Some(1.0)), _ => 0)
  }

  /** Every step test passes, and the whole-route test does not. */
  lemma StepsMissTheAnchor()
    ensures FromPool([1], Available(SelfRequest()))
    ensures StepSafe(SelfRequest(), 1, [1]) && !GeneratedSafe(SelfRequest(), [1])
  {
    var r := SelfRequest();
    AvailableMeaning(r, 1);
    assert r.candidates[0].track == 1;
    assert Visited(r, [1]) == [0, 1];
    StepwiseMatchesWhole(r, 0, [1]);
  }

  // ----- a limit that loses the minimum -----

  function LossyLeg(a: nat, b: nat): Option<Distance> {
    if a == 0 && b == 3 then Some(1.0)
    else if a == 3 && b == 1 then Some(1.0)
    else if a == 0 && b == 4 then Some(2.0)
    else if a == 4 && b == 1 then Some(2.0)
    else if a == 1 && b == 3 then Some(1.0)
    else if a == 3 && b == 2 then Some(1.0)
    else None
  }

  /** The first gap is best filled by the only track that fits the second; one
      alternative a gap is kept. */
  function LossyProblem(): Problem {
    Problem([0, 1, 2], [], [Gap(0, 1, [Candidate(3, 0.0), Candidate(4, 0.0)]), Gap(1, 2, [Candidate(3, 0.0)])],
            Blank(5),
            Limits(2, 4, 1, 0), FixedAdjacent(LossyLeg), _ => 0)
  }

  lemma LossyValid()
    ensures ValidProblem(LossyProblem())
  {
    var gaps := LossyProblem().gaps;
    assert gaps[1..] == [gaps[1]] && gaps[1..][1..] == [];
    assert CandidateTracks(gaps[0].candidates) == [3, 4] && CandidateTracks(gaps[1].candidates) == [3];
    assert AllCandidates([gaps[1]]) == [3] + [];
    assert AllCandidates(gaps) == [3, 4] + ([3] + []);
  }

  lemma LossyLegs(x: nat)
    requires x == 3 || x == 4
    ensures WalkCost(FixedAdjacent(LossyLeg), [0], [x] + [1]) == Some(if x == 3 then Cost(2.0, 1.0) else Cost(4.0, 2.0))
  {
    hide WalkCost;
    TwoLegs(FixedAdjacent(LossyLeg), [0], x, 1);
    assert [x] + [1] == [x, 1];
  }

  lemma LossyBack()
    ensures WalkCost(FixedAdjacent(LossyLeg), [0, 4, 1], [3] + [2]) == Some(Cost(2.0, 1.0))
  {
    hide WalkCost;
    TwoLegs(FixedAdjacent(LossyLeg), [0, 4, 1], 3, 2);
    assert [3] + [2] == [3, 2];
  }

  lemma LossyCost()
    ensures PlanCost(LossyProblem(), [[4], [3]]).Some?
    ensures Flatten([[4], [3]]) == [4, 3]
  {
    hide WalkCost, PlanCost, Assemble, Flatten, ValidProblem;
    var q := LossyProblem();
    LossyValid();
    WellFormedSize(q);
    assert [[4]] + [[3]] == [[4], [3]] && [4] + [3] == [4, 3];
    OnePick(q, [4]);
    CostStep(q, [[4]], [3]);
    FlattenStep([[4]], [3]);
    LossyLegs(4);
    LossyBack();
    assert [0] + [4] + [1] == [0, 4, 1];
  }

  /** Two additions make a good plan. */
  lemma LossyPlan()
    ensures GoodPlan(LossyProblem(), [[4], [3]]) && |Flatten([[4], [3]])| == 2
  {
    hide TooClose, SafeFrom, PlanCost, Flatten, Assemble;
    var q := LossyProblem();
    var picks: seq<seq<nat>> := [[4], [3]];
    LossyCost();
    BlankNeverClose(5);
    NeverCloseSafeFrom(q.policy, q.history + Assemble(q.source, picks), |q.history|);
    assert q.gaps[0].candidates[1].track == 4 && q.gaps[1].candidates[0].track == 3;
  }

  function LossyFirstRequest(cap: nat): Request {
    GapRequest(LossyProblem(), [0], 0, cap)
  }

  lemma LossyAsked(cap: nat)
    ensures var r := LossyFirstRequest(cap);
            && r.routePrefix == [0] && r.history == [] && r.rightAnchor == 1 && r.score == FixedAdjacent(LossyLeg)
            && r.policy == Blank(5) && r.unavailable == [0, 1, 2, 0] && r.config == Config(cap, 2, 4, 1, 0)
            && r.candidates == [Candidate(3, 0.0), Candidate(4, 0.0)]
            && |Available(r)| <= 2
  {
    hide AvailableTracks;
  }

  lemma LossyFeasible(cap: nat)
    ensures Feasible(LossyFirstRequest(cap), 0, [3])
  {
    hide LossyFirstRequest, AvailableTracks, WalkCost, GeneratedSafe, RightAnchorSafe, TooClose;
    LossyAsked(cap);
    var r := LossyFirstRequest(cap);
    AvailableMeaning(r, 3);
    assert r.candidates[0].track == 3;
    BlankNeverClose(5);
    SafetyByPairs(r, 0, [3]);
    LossyLegs(3);
  }

  /** Only single bridges have all their legs. */
  lemma LossyPaths(cap: nat, xs: seq<nat>)
    requires Feasible(LossyFirstRequest(cap), 0, xs)
    ensures xs == [3] || xs == [4]
  {
    hide LossyFirstRequest, AvailableTracks, WalkCost, GeneratedSafe, RightAnchorSafe;
    LossyAsked(cap);
    var r := LossyFirstRequest(cap);
    FeasibleCount(r, 0, xs);
    forall i | 0 <= i < |xs| ensures xs[i] == 3 || xs[i] == 4 {
      AvailableMeaning(r, xs[i]);
    }
    LossyNoOther(xs);
  }

  lemma LossyNoOther(xs: seq<nat>)
    requires |xs| <= 2 && forall i | 0 <= i < |xs| :: xs[i] == 3 || xs[i] == 4
    ensures WalkCost(FixedAdjacent(LossyLeg), [0], xs + [1]).Some? ==> xs == [3] || xs == [4]
  {
    hide WalkCost;
    OneLeg(FixedAdjacent(LossyLeg), [0], 1);
    assert [] + [1] == [1];
    if |xs| == 1 {
      assert xs == [xs[0]];
    }
    if |xs| == 2 {
      var x, y := xs[0], xs[1];
      assert xs == [x, y] && ([x, y] + [1])[..2] == [x, y];
      TwoLegs(FixedAdjacent(LossyLeg), [0], x, y);
      if WalkCost(FixedAdjacent(LossyLeg), [0], [x, y] + [1]).Some? {
        WalkCostPrefix(FixedAdjacent(LossyLeg), [0], [x, y] + [1], 2);
      }
    }
  }

  lemma LossyLeast(cap: nat, xs: seq<nat>)
    requires LeastFeasible(LossyFirstRequest(cap), 0, xs)
    ensures xs == [3]
  {
    hide LossyFirstRequest, Feasible, WalkCost, LexLe, GuidanceSum;
    LossyAsked(cap);
    LossyPaths(cap, xs);
    LossyFeasible(cap);
    LossyLegs(3);
    LossyLegs(4);
    var r := LossyFirstRequest(cap);
    assert KeyLe(PathKey(r, xs), PathKey(r, [3]));
  }

  lemma LossyUncut(cap: nat)
    ensures SearchUncut(LossyFirstRequest(cap), 0)
  {
    hide LossyFirstRequest, AvailableTracks, SearchUncut, SearchTrimmed, OnePerCount;
    LossyAsked(cap);
    var r := LossyFirstRequest(cap);
    TwoTwoPower(|Available(r)|, StructuralBound(r));
    RoomySearchUncut(r, 0);
  }

  lemma TwoTwoPower(base: nat, exponent: nat)
    requires base <= 2 && exponent <= 2
    ensures Power(base, exponent) <= 4
  {
    assert exponent == 2 ==> Power(base, 2) == base * Power(base, 1);
    assert Power(base, 1) == base * Power(base, 0) == base;
  }

  /** The only way on from the start goes over track 3. */
  lemma LossyFirst(budget: nat, s: GlobalState)
    requires WellFormed(LossyProblem())
    requires s in StateNext(LossyProblem(), MinimumTotal(budget), 0, StartingState(LossyProblem()))
    ensures s.route == [0, 3, 1]
  {
    hide LossyFirstRequest, Feasible, Reserve, StateNext, StateRequest, SearchUncut, LeastFeasible, PathKey;
    var q, policy := LossyProblem(), MinimumTotal(budget);
    var start := StartingState(q);
    var cap := Cap(policy, 0, Reserve(q, policy, 0));
    LossyStateRequest(budget);
    LossyAsked(cap);
    LossyUncut(cap);
    var o := LeastStep(q, policy, 0, start, s);
    LossyLeast(cap, o.intermediates);
    assert [0] + [3] + [1] == [0, 3, 1];
  }

  /** A successor, where one path a count is kept, comes over a least path. */
  lemma LeastStep(q: Problem, policy: AdditionPolicy, g: nat, s: GlobalState, next: GlobalState) returns (o: PathOption)
    requires WellFormed(q) && g < |q.gaps| && next in StateNext(q, policy, g, s)
    requires var r := StateRequest(q, policy, g, s);
             SearchUncut(r, 0) && r.config.variationPercent == 0 && r.config.alternativesPerCount == 1
    ensures var r := StateRequest(q, policy, g, s);
            GoodOption(r, 0, o) && LeastFeasible(r, 0, o.intermediates) && next == Advance(s, o)
  {
    hide Feasible, StateRequest, SearchUncut, LeastFeasible, GoodOption, Validate, OptionsBelow, StructuralBound,
      Keeps, Advance;
    var r := StateRequest(q, policy, g, s);
    SearchAnswers(r, 0);
    SearchKeepsLeast(r, 0);
    var options := SearchOf(r, 0).options;
    AdvanceAllMembers(policy, s, options);
    o :| o in options && Keeps(policy, s, o) && next == Advance(s, o);
  }

  lemma LossyStateRequest(budget: nat)
    requires WellFormed(LossyProblem())
    ensures var q, policy := LossyProblem(), MinimumTotal(budget);
            StateRequest(q, policy, 0, StartingState(q)) == LossyFirstRequest(Cap(policy, 0, Reserve(q, policy, 0)))
  {
    hide Reserve;
  }

  /** From there no way leads on: the second gap's only track is taken. */
  lemma LossySecond(budget: nat, s: GlobalState)
    requires WellFormed(LossyProblem()) && s.route == [0, 3, 1]
    ensures StateNext(LossyProblem(), MinimumTotal(budget), 1, s) == []
  {
    hide Reserve, OptionsBelow, Validate, StructuralBound, SearchUncut, Feasible;
    var q, policy := LossyProblem(), MinimumTotal(budget);
    var r := StateRequest(q, policy, 1, s);
    if Validate(r).None? {
      SearchAnswers(r, 0);
      var options := SearchOf(r, 0).options;
      if options != [] {
        assert GoodOption(r, 0, options[0]);
        LossyNoSecond(Cap(policy, s.added, Reserve(q, policy, 1)), options[0].intermediates);
        assert false;
      }
    }
  }

  lemma LossyNoSecond(cap: nat, xs: seq<nat>)
    ensures !Feasible(GapRequest(LossyProblem(), [0, 3, 1], 1, cap), 0, xs)
  {
    hide AvailableTracks, WalkCost, GeneratedSafe, RightAnchorSafe;
    var r := GapRequest(LossyProblem(), [0, 3, 1], 1, cap);
    if xs == [] {
      OneLeg(r.score, [0, 3, 1], 2);
      assert [] + [2] == [2];
    } else {
      AvailableMeaning(r, xs[0]);
      assert r.unavailable[4] == 3;
    }
  }

  lemma {:induction false} NoneGoesOn(q: Problem, policy: AdditionPolicy, g: nat, states: seq<GlobalState>)
    requires WellFormed(q) && g < |q.gaps| && forall s | s in states :: StateNext(q, policy, g, s) == []
    ensures Expansion(q, policy, g, states) == []
  {
    hide StateNext;
    if states != [] {
      NoneGoesOn(q, policy, g, states[..|states| - 1]);
    }
  }

  /** No generation of any budget reaches the last gap. */
  lemma LossyStops(budget: nat)
    requires WellFormed(LossyProblem())
    ensures Generation(LossyProblem(), MinimumTotal(budget), 2) == []
  {
    hide StateNext, Retain, StartingState;
    var q, policy := LossyProblem(), MinimumTotal(budget);
    var start, first := StartingState(q), Generation(q, policy, 1);
    assert [start][..0] == [] && Generation(q, policy, 0) == [start];
    assert first == Retain(policy, q.limits.beamWidth, Expansion(q, policy, 0, [start]));
    assert Expansion(q, policy, 0, [start]) == StateNext(q, policy, 0, start);
    RetainMembers(policy, q.limits.beamWidth, Expansion(q, policy, 0, [start]));
    forall s | s in first ensures StateNext(q, policy, 1, s) == [] {
      LossyFirst(budget, s);
      LossySecond(budget, s);
    }
    NoneGoesOn(q, policy, 1, first);
    NothingExpands(q, policy, 1);
  }

  lemma LossyOutcome(budget: nat, most: nat)
    requires WellFormed(LossyProblem())
    ensures Retries(Outcome(LossyProblem(), MinimumTotal(budget), most))
  {
    hide Generation, KeepValid, SelectState;
    var q, policy := LossyProblem(), MinimumTotal(budget);
    LossyStops(budget);
    assert OutcomeFrom(q, policy, most, 1) == Failed(NoCompleteRoute(1));
  }

  lemma {:induction false} LossyRepair(most: nat, budget: nat)
    requires WellFormed(LossyProblem())
    ensures RepairFrom(LossyProblem(), most, budget).Failed?
    decreases Minus(most + 1, budget)
  {
    hide Outcome;
    if budget <= most {
      LossyOutcome(budget, most);
      LossyRepair(most, budget + 1);
    }
  }

  /** Two additions would do, and the repair finds no plan for any maximum: the
      one alternative it keeps for the first gap uses up the second gap's track. */
  lemma LimitLosesTheMinimum(most: nat)
    ensures ValidProblem(LossyProblem()) && WellFormed(LossyProblem())
    ensures GoodPlan(LossyProblem(), [[4], [3]]) && |Flatten([[4], [3]])| == 2
    ensures Repaired(LossyProblem(), most).Failed?
    ensures most >= 2 ==> !RepairUncut(LossyProblem(), most)
  {
    hide GoodPlan, ValidProblem, RepairFrom, RepairUncut, Flatten, LeastAdditions;
    LossyValid();
    WellFormedSize(LossyProblem());
    LossyPlan();
    LossyRepair(most, LeastAdditions(LossyProblem().policy, LossyProblem().source));
    RepairedIsAnswer(LossyProblem(), most);
  }
}
