/** Destination requests on which keeping one bridge a count loses a good route. */
module DestinationWitness {
  import opened Wrappers
  import opened Repeats
  import opened Ordering
  import opened AnchoredPath
  import opened AnchoredSearch
  import opened GapPlans
  import opened DestinationBlock
  import opened DestinationSearch
  import opened DestinationForecast

  // ----- the kept bridge fails at a later block track -----

  function LaterLeg(a: nat, b: nat): Option<Distance> {
    if a == 0 && b == 1 then None else if a == 0 && b == 3 then Some(0.5) else Some(1.0)
  }

  function LaterRequest(limit: nat, beam: nat): Destination {
    Destination(ByArtist(["a", "b", "c", "c", "d"], 2), [], [0, 1, 2],
                [BoundaryGap(0, 1, [Candidate(3, 0.0), Candidate(4, 0.0)])], limit, beam, 0, LaterLeg, _ => 0)
  }

  const LATER_ORIGINAL: seq<nat> := [0, 1, 2]
  const LATER_PLAN := BlockPlan(2, false, 1)

  lemma LaterFits(limit: nat, beam: nat)
    ensures PlanFits(LATER_ORIGINAL, LATER_PLAN) && GapsMatch(LaterRequest(limit, beam), LATER_ORIGINAL, LATER_PLAN)
    ensures Lead(LATER_ORIGINAL, LATER_PLAN) == [0] && BlockOf(LATER_ORIGINAL, LATER_PLAN) == [1, 2]
    ensures Tail(LATER_ORIGINAL, LATER_PLAN) == [] && OriginalsOwned(LaterRequest(limit, beam), LATER_ORIGINAL)
  {
    assert LATER_ORIGINAL[..1] == [0] && LATER_ORIGINAL[1..3] == [1, 2];
  }

  /** Only the tracks 2 and 3 share an artist. */
  lemma LaterPairs(limit: nat, beam: nat, a: nat, b: nat, distance: nat)
    requires a < 5 && b < 5
    ensures TooClose(LaterRequest(limit, beam).policy, a, b, distance) <==>
            distance <= 2 && (a == b || (a == 2 && b == 3) || (a == 3 && b == 2))
  {
    var keys := ["a", "b", "c", "c", "d"];
    assert forall k | k in keys :: |k| == 1;
    ByArtistRepeats(keys, 2, a, b, distance);
  }

  /** What the outward search sees. */
  lemma LaterAsked(limit: nat, beam: nat)
    ensures PlanFits(LATER_ORIGINAL, LATER_PLAN) && GapsMatch(LaterRequest(limit, beam), LATER_ORIGINAL, LATER_PLAN)
    ensures var d := LaterRequest(limit, beam);
            var r := OutwardRequest(d, LATER_ORIGINAL, LATER_PLAN);
            && r.history == [] && r.routePrefix == [0] && r.rightAnchor == 1 && r.leftAnchor == 0 &&
                r.policy == d.policy
            && r.score == FixedAdjacent(LaterLeg) && r.unavailable == [0, 1, 2] && r.candidates == d.gaps[0].candidates
            && r.config == Config(1, limit, beam, 1, 0)
            && CandidateTracks(r.candidates) == [3, 4]
  {
    LaterFits(limit, beam);
    OutwardAsked(LaterRequest(limit, beam), LATER_ORIGINAL, LATER_PLAN);
  }

  /** Both bridges are feasible, and 3 is the better one. */
  lemma LaterFeasible(limit: nat, beam: nat, x: nat)
    requires x == 3 || x == 4
    ensures PlanFits(LATER_ORIGINAL, LATER_PLAN) && GapsMatch(LaterRequest(limit, beam), LATER_ORIGINAL, LATER_PLAN)
    ensures var r := OutwardRequest(LaterRequest(limit, beam), LATER_ORIGINAL, LATER_PLAN);
            Feasible(r, 0, [x]) && PathKey(r, [x]).worst == 1.0 && PathKey(r, [x]).sum == if x == 3 then 1.5 else 2.0
  {
    hide OutwardRequest, GeneratedSafe, RightAnchorSafe, TooClose, LaterRequest, AvailableTracks, WalkCost,
      GuidanceSum;
    LaterAsked(limit, beam);
    var r := OutwardRequest(LaterRequest(limit, beam), LATER_ORIGINAL, LATER_PLAN);
    AvailableIsOffered(r, [x]);
    LaterSafe(limit, beam, x);
    SafetyByPairs(r, 0, [x]);
    TwoLegs(r.score, [0], x, 1);
    assert [x] + [1] == [x, 1];
  }

  lemma LaterSafe(limit: nat, beam: nat, x: nat)
    requires x == 3 || x == 4
    ensures PlanFits(LATER_ORIGINAL, LATER_PLAN) && GapsMatch(LaterRequest(limit, beam), LATER_ORIGINAL, LATER_PLAN)
    ensures PairsSafe(OutwardRequest(LaterRequest(limit, beam), LATER_ORIGINAL, LATER_PLAN), 0, [x])
  {
    hide OutwardRequest, TooClose, LaterRequest;
    LaterAsked(limit, beam);
    var r := OutwardRequest(LaterRequest(limit, beam), LATER_ORIGINAL, LATER_PLAN);
    assert RepeatPrefix(r) == [0] && Visited(r, [x]) == [0, x];
    LaterPairs(limit, beam, 0, x, 1);
    LaterPairs(limit, beam, x, 1, 1);
    LaterPairs(limit, beam, 0, 1, 2);
  }

  lemma LaterFields(limit: nat, beam: nat)
    ensures var d := LaterRequest(limit, beam);
            && d.history == [] && d.unavailable == [0, 1, 2] && d.adjacent == LaterLeg && |d.gaps| == 1
            && CandidateTracks(d.gaps[0].candidates) == [3, 4]
  {
  }

  /** The route over 4 has the promised shape, cost and safety. */
  lemma LaterGood(limit: nat, beam: nat)
    ensures PlanFits(LATER_ORIGINAL, LATER_PLAN)
    ensures GoodDestination(LaterRequest(limit, beam), LATER_ORIGINAL, LATER_PLAN,
                            DestinationOption(1, [0, 4, 1, 2], 2.0, 1.0))
  {
    hide WalkCost, LaterRequest, Lead, BlockOf, Tail, BridgesRepeatSafe, BlockClear;
    var d, o := LaterRequest(limit, beam), DestinationOption(1, [0, 4, 1, 2], 2.0, 1.0);
    LaterFits(limit, beam);
    LaterFields(limit, beam);
    LaterRouteSafe(limit, beam);
    LaterBlockSafe(limit, beam);
    TwoLegs(FixedAdjacent(LaterLeg), [0], 4, 1);
    assert [4] + [1] == [4, 1] && [4] + [] == [4];
    assert [0] + [4] + [1, 2] + [] + [] == [0, 4, 1, 2];
    assert GoodVia(d, LATER_ORIGINAL, LATER_PLAN, [4], [], o);
  }

  lemma LaterRouteSafe(limit: nat, beam: nat)
    ensures BridgesRepeatSafe(LaterRequest(limit, beam), [0, 4, 1, 2], LATER_ORIGINAL)
  {
    hide TooClose, PositionSafe, LaterRequest;
    var d, route := LaterRequest(limit, beam), [0, 4, 1, 2];
    LaterFields(limit, beam);
    assert d.history + route == route;
    LaterPairs(limit, beam, 0, 4, 1);
    LaterPairs(limit, beam, 4, 1, 1);
    LaterPairs(limit, beam, 4, 2, 2);
    PositionSafePairs(d.policy, route, 1);
  }

  lemma LaterBlockSafe(limit: nat, beam: nat)
    ensures BlockClear(LaterRequest(limit, beam).policy, LaterRequest(limit, beam).history + [0] + [4], [1, 2])
  {
    hide TooClose, LaterRequest;
    var context := LaterRequest(limit, beam).history + [0] + [4];
    LaterFields(limit, beam);
    assert context == [0, 4];
    forall i, k | 0 <= i < 2 && 0 <= k < 2
      ensures !TooClose(LaterRequest(limit, beam).policy, context[k], [1, 2][i], 2 - k + i) {
      LaterPairs(limit, beam, context[k], [1, 2][i], 2 - k + i);
    }
  }

  /** The route over 3 fails: 3 repeats the second block track. */
  lemma LaterFails(limit: nat, beam: nat)
    ensures PlanFits(LATER_ORIGINAL, LATER_PLAN)
    ensures !Passes(LaterRequest(limit, beam), LATER_ORIGINAL, LATER_PLAN, [0, 3, 1, 2])
  {
    hide TooClose, PositionSafe, BlockContextSafe, LaterRequest;
    var d, route := LaterRequest(limit, beam), [0, 3, 1, 2];
    LaterFits(limit, beam);
    LaterFields(limit, beam);
    LaterPairs(limit, beam, 3, 2, 2);
    PositionSafePairs(d.policy, route, 1);
    assert d.history + route == route && route[3] == 2;
    assert !PositionSafe(d.policy, route, 1);
    assert route[1] !in LATER_ORIGINAL;
  }

  /** Limits of two cover both candidates. */
  lemma LaterUncut(limit: nat, beam: nat)
    requires limit >= 2 && beam >= 2
    ensures PlanFits(LATER_ORIGINAL, LATER_PLAN) && GapsMatch(LaterRequest(limit, beam), LATER_ORIGINAL, LATER_PLAN)
    ensures Admitted(LaterRequest(limit, beam), LATER_ORIGINAL, LATER_PLAN)
    ensures BridgesUncut(LaterRequest(limit, beam), LATER_ORIGINAL, LATER_PLAN)
  {
    hide Power, SearchUncut, SearchTrimmed, OnePerCount, AvailableTracks;
    LaterAsked(limit, beam);
    LaterFits(limit, beam);
    var r := OutwardRequest(LaterRequest(limit, beam), LATER_ORIGINAL, LATER_PLAN);
    assert |Available(r)| <= 2;
    SmallPower(|Available(r)|, StructuralBound(r));
    RoomySearchUncut(r, 0);
    LaterValid(limit, beam);
  }

  lemma SmallPower(base: nat, exponent: nat)
    requires base <= 2 && exponent <= 1
    ensures Power(base, exponent) <= 2
  {
  }

  lemma LaterValid(limit: nat, beam: nat)
    requires limit >= 2 && beam >= 2
    ensures PlanFits(LATER_ORIGINAL, LATER_PLAN) && GapsMatch(LaterRequest(limit, beam), LATER_ORIGINAL, LATER_PLAN)
    ensures OutwardRefusal(LaterRequest(limit, beam), LATER_ORIGINAL, LATER_PLAN).None?
  {
    hide FirstInvalid;
    LaterAsked(limit, beam);
    LaterFits(limit, beam);
    var r := OutwardRequest(LaterRequest(limit, beam), LATER_ORIGINAL, LATER_PLAN);
    var referenced := [0] + [] + [0, 1, 2] + [0, 1] + [3, 4];
    assert ReferencedTracks(r) == referenced;
    assert ValidIndices(r.policy, referenced);
  }

  /** Whatever covering limits it is given, the planner returns nothing here,
      although a good route exists: the outward search keeps the better bridge
      and only the finished route shows its repeat with a later block track. */
  lemma KeptBridgeRepeatsTheBlock(limit: nat, beam: nat)
    requires limit >= 2 && beam >= 2
    ensures PlanFits(LATER_ORIGINAL, LATER_PLAN) && GapsMatch(LaterRequest(limit, beam), LATER_ORIGINAL, LATER_PLAN)
    ensures OriginalsOwned(LaterRequest(limit, beam), LATER_ORIGINAL)
    ensures BridgesUncut(LaterRequest(limit, beam), LATER_ORIGINAL, LATER_PLAN)
    ensures GoodDestination(LaterRequest(limit, beam), LATER_ORIGINAL, LATER_PLAN,
                            DestinationOption(1, [0, 4, 1, 2], 2.0, 1.0))
    ensures AllOptions(LaterRequest(limit, beam), LATER_ORIGINAL, LATER_PLAN) == []
  {
    hide Chosen, LaterRequest, AllOptions, BridgesUncut, Admitted, GoodDestination, GapsMatch;
    var d := LaterRequest(limit, beam);
    LaterFits(limit, beam);
    LaterGood(limit, beam);
    LaterUncut(limit, beam);
    assert d.variationPercent == 0 by { LaterNoVariation(limit, beam); }
    var options := AllOptions(d, LATER_ORIGINAL, LATER_PLAN);
    if options != [] {
      OptionsAreChosen(d, LATER_ORIGINAL, LATER_PLAN, options[0]);
      var outward, back: seq<nat> :| Chosen(d, LATER_ORIGINAL, LATER_PLAN, outward, back, options[0]);
      LaterNotChosen(limit, beam, outward, back, options[0]);
      assert false;
    }
  }

  lemma LaterNoVariation(limit: nat, beam: nat)
    ensures LaterRequest(limit, beam).variationPercent == 0
  {
  }

  lemma LaterNotChosen(limit: nat, beam: nat, outward: seq<nat>, back: seq<nat>, o: DestinationOption)
    ensures PlanFits(LATER_ORIGINAL, LATER_PLAN) && GapsMatch(LaterRequest(limit, beam), LATER_ORIGINAL, LATER_PLAN)
    ensures !Chosen(LaterRequest(limit, beam), LATER_ORIGINAL, LATER_PLAN, outward, back, o)
  {
    hide LaterRequest, GapsMatch, PlanFits, OutwardRequest, Feasible, PathKey, Passes, Lead, BlockOf, Tail,
      BoundaryCost, LexLe;
    LaterFits(limit, beam);
    LaterFails(limit, beam);
    LaterFeasible(limit, beam, 3);
    LaterFeasible(limit, beam, 4);
    var d := LaterRequest(limit, beam);
    var r := OutwardRequest(d, LATER_ORIGINAL, LATER_PLAN);
    assert PathKey(r, [3]).rank == PathKey(r, [4]).rank by { SameRank(r, [3], [4]); }
    assert !KeyLe(PathKey(r, [4]), PathKey(r, [3]));
    assert [0] + [3] + [1, 2] + [] + [] == [0, 3, 1, 2];
    if Chosen(d, LATER_ORIGINAL, LATER_PLAN, outward, back, o) {
      LaterPaths(limit, beam, outward);
      assert false;
    }
  }

  lemma SameRank(r: Request, xs: seq<nat>, ys: seq<nat>)
    ensures PathKey(r, xs).rank == PathKey(r, ys).rank
  {
  }

  /** The feasible ways in with at most one bridge. */
  lemma LaterPaths(limit: nat, beam: nat, outward: seq<nat>)
    requires |outward| <= 1
    ensures PlanFits(LATER_ORIGINAL, LATER_PLAN) && GapsMatch(LaterRequest(limit, beam), LATER_ORIGINAL, LATER_PLAN)
    ensures Feasible(OutwardRequest(LaterRequest(limit, beam), LATER_ORIGINAL, LATER_PLAN), 0, outward) ==>
              outward == [3] || outward == [4]
  {
    hide LaterRequest, OutwardRequest, GeneratedSafe, RightAnchorSafe, AvailableTracks, WalkCost;
    LaterAsked(limit, beam);
    var r := OutwardRequest(LaterRequest(limit, beam), LATER_ORIGINAL, LATER_PLAN);
    AvailableIsOffered(r, outward);
    OneLeg(r.score, [0], 1);
    assert [] + [1] == [1];
    if outward != [] {
      assert outward == [outward[0]];
    }
  }

  // ----- the least ways need not have the least sum -----

  function SumLeg(a: nat, b: nat): Option<Distance> {
    if a == 0 && b == 3 then Some(2.0)
    else if a == 3 && b == 1 then Some(2.0)
    else if a == 0 && b == 4 then Some(3.0)
    else if a == 4 && b == 1 then Some(0.0)
    else if a == 1 && b == 5 then Some(5.0)
    else if a == 5 && b == 2 then Some(0.0)
    else None
  }

  function SumRequest(limit: nat, beam: nat): Destination {
    Destination(ByArtist(["a", "b", "c", "d", "e", "f"], 0), [], [0, 1, 2],
                [BoundaryGap(0, 1, [Candidate(3, 0.0), Candidate(4, 0.0)]), BoundaryGap(1, 2, [Candidate(5, 0.0)])],
                limit, beam, 0, SumLeg, _ => 0)
  }

  const SUM_PLAN := BlockPlan(1, true, 2)

  lemma SumFits(limit: nat, beam: nat)
    ensures PlanFits(LATER_ORIGINAL, SUM_PLAN) && GapsMatch(SumRequest(limit, beam), LATER_ORIGINAL, SUM_PLAN)
    ensures Lead(LATER_ORIGINAL, SUM_PLAN) == [0] && BlockOf(LATER_ORIGINAL, SUM_PLAN) == [1]
    ensures Tail(LATER_ORIGINAL, SUM_PLAN) == [2] && OriginalsOwned(SumRequest(limit, beam), LATER_ORIGINAL)
  {
    assert LATER_ORIGINAL[..1] == [0] && LATER_ORIGINAL[1..2] == [1] && LATER_ORIGINAL[2..] == [2];
  }

  lemma SumFields(limit: nat, beam: nat)
    ensures var d := SumRequest(limit, beam);
            && d.history == [] && d.unavailable == [0, 1, 2] && d.adjacent == SumLeg && |d.gaps| == 2 &&
                d.variationPercent == 0
            && CandidateTracks(d.gaps[0].candidates) == [3, 4] && CandidateTracks(d.gaps[1].candidates) == [5]
  {
  }

  /** With every window off nothing is too close to anything. */
  lemma SumNeverClose(limit: nat, beam: nat)
    ensures forall a, b, distance :: !TooClose(SumRequest(limit, beam).policy, a, b, distance)
  {
  }

  /** The feasible ways in are single bridges, and 3 has the better worst leg. */
  lemma SumWays(limit: nat, beam: nat, outward: seq<nat>)
    requires |outward| <= 2
    ensures PlanFits(LATER_ORIGINAL, SUM_PLAN) && GapsMatch(SumRequest(limit, beam), LATER_ORIGINAL, SUM_PLAN)
    ensures var r := OutwardRequest(SumRequest(limit, beam), LATER_ORIGINAL, SUM_PLAN);
            && (Feasible(r, 0, outward) ==> outward == [3] || outward == [4])
            && PathKey(r, [3]).worst == 2.0 && PathKey(r, [4]).worst == 3.0
            && PathKey(r, [3]).rank == PathKey(r, [4]).rank
  {
    hide OutwardRequest, SumRequest, Lead, BlockOf, Tail, AvailableTracks, WalkCost, GeneratedSafe, RightAnchorSafe,
      GuidanceSum;
    SumFits(limit, beam);
    SumFields(limit, beam);
    OutwardAsked(SumRequest(limit, beam), LATER_ORIGINAL, SUM_PLAN);
    var r := OutwardRequest(SumRequest(limit, beam), LATER_ORIGINAL, SUM_PLAN);
    AvailableIsOffered(r, outward);
    SumLegs(3);
    SumLegs(4);
    SumNoOther(outward);
  }

  /** Over tracks 3 and 4 only single bridges have all their legs. */
  lemma SumNoOther(outward: seq<nat>)
    requires |outward| <= 2
    ensures FromPool(outward, [3, 4]) && WalkCost(FixedAdjacent(SumLeg), [0], outward + [1]).Some? ==>
              outward == [3] || outward == [4]
  {
    hide WalkCost;
    OneLeg(FixedAdjacent(SumLeg), [0], 1);
    assert [] + [1] == [1];
    if |outward| == 1 {
      assert outward == [outward[0]];
    }
    if |outward| == 2 && FromPool(outward, [3, 4]) {
      var x, y := outward[0], outward[1];
      assert outward == [x, y] && (x == 3 || x == 4) && (y == 3 || y == 4);
      TwoLegs(FixedAdjacent(SumLeg), [0], x, y);
      assert ([x, y] + [1])[..2] == [x, y];
      if WalkCost(FixedAdjacent(SumLeg), [0], [x, y] + [1]).Some? {
        WalkCostPrefix(FixedAdjacent(SumLeg), [0], [x, y] + [1], 2);
      }
    }
  }

  /** So is the only way back. */
  lemma SumBack(limit: nat, beam: nat, back: seq<nat>)
    requires |back| <= 1
    ensures PlanFits(LATER_ORIGINAL, SUM_PLAN) && GapsMatch(SumRequest(limit, beam), LATER_ORIGINAL, SUM_PLAN)
    ensures Feasible(ReturnRequest(SumRequest(limit, beam), LATER_ORIGINAL, SUM_PLAN, [3]), 1, back) ==> back == [5]
  {
    hide ReturnRequest, SumRequest, Lead, BlockOf, Tail, AvailableTracks, WalkCost, GeneratedSafe, RightAnchorSafe,
      AlsoUnavailable, GapsMatch, Entry;
    SumFits(limit, beam);
    SumFields(limit, beam);
    ReturnAsked(SumRequest(limit, beam), LATER_ORIGINAL, SUM_PLAN, [3]);
    var r := ReturnRequest(SumRequest(limit, beam), LATER_ORIGINAL, SUM_PLAN, [3]);
    AvailableIsOffered(r, back);
    SumNoDirect(r.routePrefix);
    if back != [] {
      assert back == [back[0]];
    }
  }

  lemma SumNoDirect(prefix: seq<nat>)
    ensures prefix != [] && prefix[|prefix| - 1] == 1 ==> WalkCost(FixedAdjacent(SumLeg), prefix, [] + [2]).None?
  {
    OneLeg(FixedAdjacent(SumLeg), prefix, 2);
    assert [] + [2] == [2];
  }

  /** The legs of the two ways. */
  lemma SumLegs(x: nat)
    requires x == 3 || x == 4
    ensures WalkCost(FixedAdjacent(SumLeg), [0], [x] + [1]) == Some(if x == 3 then Cost(4.0, 2.0) else Cost(3.0, 3.0))
    ensures WalkCost(FixedAdjacent(SumLeg), [0] + [x] + [1], [5] + [2]) == Some(Cost(5.0, 5.0))
  {
    TwoLegs(FixedAdjacent(SumLeg), [0], x, 1);
    TwoLegs(FixedAdjacent(SumLeg), [0] + [x] + [1], 5, 2);
    assert [x] + [1] == [x, 1] && [5] + [2] == [5, 2];
  }

  /** The way over 4 and back over 5 is good, with sum 8. */
  lemma SumGood(limit: nat, beam: nat)
    ensures PlanFits(LATER_ORIGINAL, SUM_PLAN)
    ensures GoodDestination(SumRequest(limit, beam), LATER_ORIGINAL, SUM_PLAN,
                            DestinationOption(2, [0, 4, 1, 5, 2], 8.0, 5.0))
  {
    hide WalkCost, SumRequest, Lead, BlockOf, Tail, TooClose, PositionSafe, FixedAdjacent;
    var d, o := SumRequest(limit, beam), DestinationOption(2, [0, 4, 1, 5, 2], 8.0, 5.0);
    SumFits(limit, beam);
    SumFields(limit, beam);
    SumNeverClose(limit, beam);
    forall position | 0 <= position < 5 ensures PositionSafe(d.policy, d.history + o.route, position) {
      NeverCloseIsSafe(d.policy, d.history + o.route, position);
    }
    SumLegs(4);
    assert [4] + [5] == [4, 5];
    assert [0] + [4] + [1] + [5] + [2] == [0, 4, 1, 5, 2];
    assert GoodVia(d, LATER_ORIGINAL, SUM_PLAN, [4], [5], o);
  }

  lemma SumApart(limit: nat, beam: nat)
    ensures PlanFits(LATER_ORIGINAL, SUM_PLAN) && Apart(SumRequest(limit, beam), LATER_ORIGINAL, SUM_PLAN)
  {
    hide TooClose, SumRequest;
    SumFits(limit, beam);
    SumFields(limit, beam);
    SumNeverClose(limit, beam);
  }

  /** What can be chosen goes over 3 and costs 9 in sum. */
  lemma SumChosen(limit: nat, beam: nat, outward: seq<nat>, back: seq<nat>, o: DestinationOption)
    requires PlanFits(LATER_ORIGINAL, SUM_PLAN) && GapsMatch(SumRequest(limit, beam), LATER_ORIGINAL, SUM_PLAN)
    requires Chosen(SumRequest(limit, beam), LATER_ORIGINAL, SUM_PLAN, outward, back, o)
    ensures o.sum == 9.0
  {
    hide SumRequest, Lead, BlockOf, Tail, WalkCost, PathKey, OutwardRequest, ReturnRequest, GapsMatch, Passes, LexLe,
      Feasible, FixedAdjacent;
    SumFits(limit, beam);
    SumFields(limit, beam);
    SumWays(limit, beam, outward);
    SumFeasible(limit, beam);
    var r := OutwardRequest(SumRequest(limit, beam), LATER_ORIGINAL, SUM_PLAN);
    assert !KeyLe(PathKey(r, [4]), PathKey(r, [3]));
    assert outward == [3];
    SumBack(limit, beam, back);
    SumLegs(3);
  }

  lemma SumFeasible(limit: nat, beam: nat)
    ensures PlanFits(LATER_ORIGINAL, SUM_PLAN) && GapsMatch(SumRequest(limit, beam), LATER_ORIGINAL, SUM_PLAN)
    ensures Feasible(OutwardRequest(SumRequest(limit, beam), LATER_ORIGINAL, SUM_PLAN), 0, [3])
  {
    hide OutwardRequest, SumRequest, Lead, BlockOf, Tail, AvailableTracks, WalkCost, GeneratedSafe, RightAnchorSafe,
      PairsSafe;
    SumFits(limit, beam);
    SumFields(limit, beam);
    OutwardAsked(SumRequest(limit, beam), LATER_ORIGINAL, SUM_PLAN);
    var r := OutwardRequest(SumRequest(limit, beam), LATER_ORIGINAL, SUM_PLAN);
    AvailableIsOffered(r, [3]);
    SumSafe(limit, beam, r, [3]);
    SafetyByPairs(r, 0, [3]);
    SumLegs(3);
  }

  lemma SumSafe(limit: nat, beam: nat, r: Request, xs: seq<nat>)
    requires r.policy == SumRequest(limit, beam).policy
    ensures PairsSafe(r, 0, xs)
  {
    hide TooClose, SumRequest;
    SumNeverClose(limit, beam);
  }

  /** With a rejoin anchor the least ways match by worst leg only: here a good
      route has the same worst leg as every route that can be chosen, and a
      smaller sum, although nothing stands too close and the boundaries share
      no candidate. */
  lemma LeastWaysMissTheSum(limit: nat, beam: nat, outward: seq<nat>, back: seq<nat>, chosen: DestinationOption)
    ensures PlanFits(LATER_ORIGINAL, SUM_PLAN) && GapsMatch(SumRequest(limit, beam), LATER_ORIGINAL, SUM_PLAN)
    ensures OriginalsOwned(SumRequest(limit, beam), LATER_ORIGINAL)
    ensures Apart(SumRequest(limit, beam), LATER_ORIGINAL, SUM_PLAN)
    ensures GoodDestination(SumRequest(limit, beam), LATER_ORIGINAL, SUM_PLAN,
                            DestinationOption(2, [0, 4, 1, 5, 2], 8.0, 5.0))
    ensures Chosen(SumRequest(limit, beam), LATER_ORIGINAL, SUM_PLAN, outward, back, chosen) ==> chosen.sum == 9.0
  {
    hide SumRequest, GapsMatch, Apart, GoodDestination, Chosen;
    SumFits(limit, beam);
    SumApart(limit, beam);
    SumGood(limit, beam);
    if Chosen(SumRequest(limit, beam), LATER_ORIGINAL, SUM_PLAN, outward, back, chosen) {
      SumChosen(limit, beam, outward, back, chosen);
    }
  }
}
