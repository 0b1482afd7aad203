/** When keeping one bridge a count loses nothing: conditions on the request
    alone under which the planner matches every good route. */
module DestinationForecast {
  import opened Wrappers
  import opened Repeats
  import opened Ordering
  import opened AnchoredPath
  import opened AnchoredSearch
  import opened GapPlans
  import opened DestinationBlock
  import opened DestinationSearch

  /** A candidate of the boundary that the outer plan does not own. */
  predicate Free(d: Destination, boundary: nat, x: nat) {
    boundary < |d.gaps| && x in CandidateTracks(d.gaps[boundary].candidates) && x !in d.unavailable
  }

  /** No outward candidate repeats a later block track, even next to the block. */
  ghost predicate LaterBlockClear(d: Destination, original: seq<nat>, plan: BlockPlan)
    requires PlanFits(original, plan)
  {
    forall x: nat, i | Free(d, 0, x) && 1 <= i < |BlockOf(original, plan)| ::
      !TooClose(d.policy, x, BlockOf(original, plan)[i], i + 1)
  }

  /** Nor anything after the block: no return candidate, not the rejoin anchor. */
  ghost predicate ReturnApart(d: Destination, original: seq<nat>, plan: BlockPlan)
    requires PlanFits(original, plan)
  {
    plan.rejoinsQueue ==>
      && (forall x: nat | Free(d, 0, x) :: !TooClose(d.policy, x, Tail(original, plan)[0], plan.trackCount + 1))
      && (forall x: nat, y: nat | Free(d, 0, x) && Free(d, 1, y) ::
            x != y && !TooClose(d.policy, x, y, plan.trackCount + 1))
  }

  ghost predicate Apart(d: Destination, original: seq<nat>, plan: BlockPlan)
    requires PlanFits(original, plan)
  {
    LaterBlockClear(d, original, plan) && ReturnApart(d, original, plan)
  }

  /** Standing further apart never brings two tracks too close. */
  lemma TooCloseShrinks(p: Policy, a: nat, b: nat, near: nat, far: nat)
    requires near <= far && !TooClose(p, a, b, near)
    ensures !TooClose(p, a, b, far)
  {
  }

  // ----- what feasible bridges are clear of -----

  ghost predicate OutwardSafe(d: Destination, original: seq<nat>, plan: BlockPlan, xs: seq<nat>)
    requires PlanFits(original, plan)
  {
    && Distinct(xs) && Avoids(xs, d.unavailable) && Offered(d, 0, xs)
    && SafeFrom(d.policy, d.history + Lead(original, plan) + xs, |d.history + Lead(original, plan)|)
    && (forall i | 0 <= i < |xs| :: !TooClose(d.policy, xs[i], BlockOf(original, plan)[0], |xs| - i))
  }

  lemma OutwardFacts(d: Destination, original: seq<nat>, plan: BlockPlan, xs: seq<nat>)
    requires PlanFits(original, plan) && GapsMatch(d, original, plan)
    requires Feasible(OutwardRequest(d, original, plan), 0, xs)
    ensures OutwardSafe(d, original, plan, xs)
  {
    hide TooClose, GeneratedSafe, RightAnchorSafe, WalkCost, AvailableTracks, Lead, BlockOf, OutwardRequest, SafeFrom;
    OutwardAsked(d, original, plan);
    SafetyByPairs(OutwardRequest(d, original, plan), 0, xs);
    AvailableIsOffered(OutwardRequest(d, original, plan), xs);
  }

  ghost predicate BackSafe(d: Destination, original: seq<nat>, plan: BlockPlan, xs: seq<nat>, ys: seq<nat>)
    requires PlanFits(original, plan) && plan.rejoinsQueue
  {
    var before, rejoin := Lead(original, plan) + xs + BlockOf(original, plan), Tail(original, plan)[0];
    && Distinct(ys) && Avoids(ys, AlsoUnavailable(d.unavailable, Entry(original, plan, xs))) && Offered(d, 1, ys)
    && SafeFrom(d.policy, d.history + before + ys, |d.history + before|)
    && (forall i | 0 <= i < |ys| :: !TooClose(d.policy, ys[i], rejoin, |ys| - i))
    && (forall k | Context(d, original, plan) <= k < |d.history + before| ::
          !TooClose(d.policy, (d.history + before)[k], rejoin, |d.history + before| - k + |ys|))
  }

  lemma BackFacts(d: Destination, original: seq<nat>, plan: BlockPlan, xs: seq<nat>, ys: seq<nat>)
    requires PlanFits(original, plan) && GapsMatch(d, original, plan) && plan.rejoinsQueue
    ensures var r := ReturnRequest(d, original, plan, xs);
            Feasible(r, Context(d, original, plan), ys) <==>
            BackSafe(d, original, plan, xs, ys) && WalkCost(r.score, r.routePrefix, ys + [r.rightAnchor]).Some?
  {
    hide TooClose, GeneratedSafe, RightAnchorSafe, WalkCost, AvailableTracks, Lead, BlockOf, Tail, ReturnRequest,
      SafeFrom, AlsoUnavailable, Entry;
    assert |d.gaps| == 2;
    hide GapsMatch;
    var r := ReturnRequest(d, original, plan, xs);
    ReturnAsked(d, original, plan, xs);
    SafetyByPairs(r, Context(d, original, plan), ys);
    AvailableIsOffered(r, ys);
  }

  // ----- a finished route -----

  /** Bridges clear of all before them, of each other and of what follows are
      safe at every position of the whole route. */
  lemma BridgesSafe(p: Policy, before: seq<nat>, xs: seq<nat>, after: seq<nat>, position: nat)
    requires SafeFrom(p, before + xs, |before|)
    requires forall i, k | 0 <= i < |xs| && 0 <= k < |after| :: !TooClose(p, xs[i], after[k], |xs| - i + k)
    requires |before| <= position < |before| + |xs|
    ensures PositionSafe(p, before + xs + after, position)
  {
    hide TooClose, PositionSafe;
    var visited, full := before + xs, before + xs + after;
    forall l | 0 <= l < position ensures !TooClose(p, full[l], full[position], position - l) {
      assert full[l] == visited[l] && full[position] == visited[position];
    }
    forall r | position < r < |full| ensures !TooClose(p, full[position], full[r], r - position) {
      if r < |visited| {
        assert full[r] == visited[r] && full[position] == visited[position];
      } else {
        var i, k := position - |before|, r - |visited|;
        assert full[position] == xs[i] && full[r] == after[k];
        assert r - position == |xs| - i + k;
      }
    }
    PositionSafePairs(p, full, position);
  }

  /** What follows the way in: the block, the way back, the rejoin anchor. */
  function After(original: seq<nat>, plan: BlockPlan, ys: seq<nat>): seq<nat>
    requires PlanFits(original, plan)
  {
    BlockOf(original, plan) + ys + Tail(original, plan)
  }

  /** Nothing on the way in comes too close to what follows it. */
  lemma OutwardClearAfter(d: Destination, original: seq<nat>, plan: BlockPlan, xs: seq<nat>, ys: seq<nat>, i: nat,
                          k: nat)
    requires PlanFits(original, plan) && Apart(d, original, plan) && OutwardSafe(d, original, plan, xs)
    requires if plan.rejoinsQueue then Offered(d, 1, ys) && Avoids(ys, d.unavailable) else ys == []
    requires i < |xs| && k < |After(original, plan, ys)|
    ensures !TooClose(d.policy, xs[i], After(original, plan, ys)[k], |xs| - i + k)
  {
    hide TooClose, SafeFrom, Lead, BlockOf, Tail, Distinct;
    var after, block := After(original, plan, ys), BlockOf(original, plan);
    assert Free(d, 0, xs[i]);
    if k == 0 {
      assert after[k] == block[0];
    } else if k < |block| {
      assert after[k] == block[k];
      TooCloseShrinks(d.policy, xs[i], block[k], k + 1, |xs| - i + k);
    } else if k < |block| + |ys| {
      var y := ys[k - |block|];
      assert after[k] == y && Free(d, 1, y);
      TooCloseShrinks(d.policy, xs[i], y, |block| + 1, |xs| - i + k);
    } else {
      assert after[k] == Tail(original, plan)[0];
      TooCloseShrinks(d.policy, xs[i], Tail(original, plan)[0], |block| + 1, |xs| - i + k);
    }
  }

  /** Nothing on the way back comes too close to the rejoin anchor. */
  lemma BackClearAfter(d: Destination, original: seq<nat>, plan: BlockPlan, xs: seq<nat>, ys: seq<nat>, i: nat, k: nat)
    requires PlanFits(original, plan) && plan.rejoinsQueue && BackSafe(d, original, plan, xs, ys)
    requires i < |ys| && k < |Tail(original, plan)|
    ensures !TooClose(d.policy, ys[i], Tail(original, plan)[k], |ys| - i + k)
  {
    hide TooClose, SafeFrom, Lead, BlockOf, Distinct, Avoids, Offered, AlsoUnavailable;
    assert k == 0;
  }

  ghost predicate BackFits(d: Destination, original: seq<nat>, plan: BlockPlan, xs: seq<nat>, ys: seq<nat>)
    requires PlanFits(original, plan)
  {
    if plan.rejoinsQueue then BackSafe(d, original, plan, xs, ys) else ys == []
  }

  /** Bridges safe on their own boundary are safe on the whole route. */
  lemma RouteIsSafe(d: Destination, original: seq<nat>, plan: BlockPlan, xs: seq<nat>, ys: seq<nat>)
    requires PlanFits(original, plan) && Apart(d, original, plan)
    requires OutwardSafe(d, original, plan, xs) && BackFits(d, original, plan, xs, ys)
    ensures BridgesRepeatSafe(d, Lead(original, plan) + xs + BlockOf(original, plan) + ys + Tail(original, plan),
                              original)
  {
    hide TooClose, PositionSafe, SafeFrom, Apart, OutwardSafe, BackFits;
    var lead, block, tail := Lead(original, plan), BlockOf(original, plan), Tail(original, plan);
    var route := lead + xs + block + ys + tail;
    var full, h := d.history + route, |d.history|;
    OriginalSplits(original, plan);
    forall position | h <= position < |full|
      ensures full[position] in original || PositionSafe(d.policy, full, position) {
      var at := position - h;
      assert full[position] == route[at];
      if at < |lead| {
        assert route[at] == original[at];
      } else if at < |lead| + |xs| {
        OutwardPositionSafe(d, original, plan, xs, ys, position);
      } else if at < |lead| + |xs| + |block| {
        assert route[at] == original[at - |xs|];
      } else if at < |lead| + |xs| + |block| + |ys| {
        BackPositionSafe(d, original, plan, xs, ys, position);
      } else {
        assert route[at] == original[at - |xs| - |ys|];
      }
    }
  }

  lemma OutwardPositionSafe(d: Destination, original: seq<nat>, plan: BlockPlan, xs: seq<nat>, ys: seq<nat>,
                            position: nat)
    requires PlanFits(original, plan) && Apart(d, original, plan)
    requires OutwardSafe(d, original, plan, xs) && BackFits(d, original, plan, xs, ys)
    requires |d.history| + |Lead(original, plan)| <= position < |d.history| + |Lead(original, plan)| + |xs|
    ensures PositionSafe(d.policy, d.history + (Lead(original, plan) + xs + BlockOf(original, plan) + ys +
                                                Tail(original, plan)),
                         position)
  {
    hide TooClose, PositionSafe, SafeFrom, Apart, Distinct, Offered, Lead, BlockOf, Tail;
    var before, after := d.history + Lead(original, plan), After(original, plan, ys);
    forall i, k | 0 <= i < |xs| && 0 <= k < |after| ensures !TooClose(d.policy, xs[i], after[k], |xs| - i + k) {
      if plan.rejoinsQueue {
        StillAvoids(d.unavailable, Entry(original, plan, xs), ys);
      }
      OutwardClearAfter(d, original, plan, xs, ys, i, k);
    }
    BridgesSafe(d.policy, before, xs, after, position);
    assert before + xs + after ==
           d.history + (Lead(original, plan) + xs + BlockOf(original, plan) + ys + Tail(original, plan));
  }

  lemma StillAvoids(owned: seq<nat>, route: seq<nat>, ys: seq<nat>)
    requires Avoids(ys, AlsoUnavailable(owned, route))
    ensures Avoids(ys, owned) && Avoids(ys, route)
  {
  }

  lemma BackPositionSafe(d: Destination, original: seq<nat>, plan: BlockPlan, xs: seq<nat>, ys: seq<nat>, position: nat)
    requires PlanFits(original, plan) && BackFits(d, original, plan, xs, ys)
    requires var base := |d.history| + |Lead(original, plan)| + |xs| + plan.trackCount; base <= position < base + |ys|
    ensures PositionSafe(d.policy, d.history + (Lead(original, plan) + xs + BlockOf(original, plan) + ys +
                                                Tail(original, plan)),
                         position)
  {
    hide TooClose, PositionSafe, SafeFrom, Distinct, Offered, Avoids, AlsoUnavailable, Lead, BlockOf, Tail;
    var before, after := d.history + (Lead(original, plan) + xs + BlockOf(original, plan)), Tail(original, plan);
    forall i, k | 0 <= i < |ys| && 0 <= k < |after| ensures !TooClose(d.policy, ys[i], after[k], |ys| - i + k) {
      BackClearAfter(d, original, plan, xs, ys, i, k);
    }
    BridgesSafe(d.policy, before, ys, after, position);
    assert before + ys + after ==
           d.history + (Lead(original, plan) + xs + BlockOf(original, plan) + ys + Tail(original, plan));
  }

  /** A block clear of its context stays clear when the way in is exchanged for
      another of its length. */
  lemma BlockStaysClear(d: Destination, original: seq<nat>, plan: BlockPlan, xs: seq<nat>, zs: seq<nat>)
    requires PlanFits(original, plan) && LaterBlockClear(d, original, plan) && |xs| == |zs|
    requires OutwardSafe(d, original, plan, zs)
    requires BlockClear(d.policy, d.history + Lead(original, plan) + xs, BlockOf(original, plan))
    ensures BlockClear(d.policy, d.history + Lead(original, plan) + zs, BlockOf(original, plan))
  {
    hide TooClose, SafeFrom, Distinct, Lead, BlockOf;
    var base, block := |d.history + Lead(original, plan)|, BlockOf(original, plan);
    var was, now := d.history + Lead(original, plan) + xs, d.history + Lead(original, plan) + zs;
    forall i, k | 0 <= i < |block| && 0 <= k < |now| ensures !TooClose(d.policy, now[k], block[i], |now| - k + i) {
      if k < base {
        assert now[k] == was[k];
        assert !TooClose(d.policy, was[k], block[i], |was| - k + i);
      } else {
        var z := zs[k - base];
        assert now[k] == z && Free(d, 0, z);
        if i == 0 {
          assert |now| - k + i == |zs| - (k - base);
        } else {
          TooCloseShrinks(d.policy, z, block[i], i + 1, |now| - k + i);
        }
      }
    }
  }

  /** Ways in and back that are safe, with a block clear of its context, make a
      route that passes the final checks. */
  lemma WaysPass(d: Destination, original: seq<nat>, plan: BlockPlan, xs: seq<nat>, ys: seq<nat>, o: DestinationOption)
    requires PlanFits(original, plan) && Apart(d, original, plan) && OriginalsOwned(d, original)
    requires OutwardSafe(d, original, plan, xs) && BackFits(d, original, plan, xs, ys)
    requires |xs| + |ys| <= plan.maxAddedTracks && Describes(d, original, plan, xs, ys, o)
    requires BlockClear(d.policy, d.history + Lead(original, plan) + xs, BlockOf(original, plan))
    ensures Passes(d, original, plan, o.route)
  {
    hide Apart, OriginalsOwned, BlockClear, BridgesRepeatSafe, BlockContextSafe, BoundaryCost, OutwardSafe, BackFits,
      Shape;
    RouteIsSafe(d, original, plan, xs, ys);
    WaysShape(d, original, plan, xs, ys, o);
    ContextCheckMeaning(d, original, plan, xs, ys, o);
  }

  lemma WaysShape(d: Destination, original: seq<nat>, plan: BlockPlan, xs: seq<nat>, ys: seq<nat>, o: DestinationOption)
    requires PlanFits(original, plan) && OutwardSafe(d, original, plan, xs) && BackFits(d, original, plan, xs, ys)
    requires |xs| + |ys| <= plan.maxAddedTracks && Describes(d, original, plan, xs, ys, o)
    ensures Shape(d, original, plan, xs, ys, o)
  {
    hide SafeFrom, TooClose, BoundaryCost, Distinct, Avoids, AlsoUnavailable, Lead, BlockOf, Tail;
    if plan.rejoinsQueue {
      BridgesOnRoute(Lead(original, plan), xs, BlockOf(original, plan)[0]);
      BothBridgesDistinct(xs, ys, d.unavailable, Entry(original, plan, xs));
    } else {
      assert xs + ys == xs;
    }
  }

  // ----- exchanging the way in -----

  /** With fixed scores a walk costs the same after any prefix with the same end. */
  lemma {:induction false} FixedWalk(adjacent: (nat, nat) -> Option<Distance>, p: seq<nat>, q: seq<nat>, xs: seq<nat>)
    requires p != [] && q != [] && p[|p| - 1] == q[|q| - 1]
    ensures WalkCost(FixedAdjacent(adjacent), p, xs) == WalkCost(FixedAdjacent(adjacent), q, xs)
  {
    if xs != [] {
      var before := xs[..|xs| - 1];
      FixedWalk(adjacent, p, q, before);
      assert (p + before)[|p + before| - 1] == (q + before)[|q + before| - 1];
    }
  }

  /** A way back that fits one way in fits every other of its length. */
  lemma BackStaysSafe(d: Destination, original: seq<nat>, plan: BlockPlan, xs: seq<nat>, zs: seq<nat>, ys: seq<nat>)
    requires PlanFits(original, plan) && plan.rejoinsQueue && Apart(d, original, plan) && OriginalsOwned(d, original)
    requires |xs| == |zs| && OutwardSafe(d, original, plan, zs) && BackSafe(d, original, plan, xs, ys)
    ensures BackSafe(d, original, plan, zs, ys)
  {
    hide TooClose, SafeFrom, Distinct, OriginalsOwned, Lead, BlockOf, Tail, AlsoUnavailable;
    var block, rejoin := BlockOf(original, plan), Tail(original, plan)[0];
    var was, now := d.history + (Lead(original, plan) + xs + block), d.history + (Lead(original, plan) + zs + block);
    StillAvoids(d.unavailable, Entry(original, plan, xs), ys);
    BackAvoids(d, original, plan, zs, ys);
    forall l, r | 0 <= l < r < |now + ys| && |now| <= r
      ensures !TooClose(d.policy, (now + ys)[l], (now + ys)[r], r - l) {
      BackPairClear(d, original, plan, xs, zs, ys, l, r);
    }
    assert SafeFrom(d.policy, now + ys, |now|) by { SafePairs(d.policy, now + ys, |now|); }
    forall k | Context(d, original, plan) <= k < |now| ensures !TooClose(d.policy, now[k], rejoin, |now| - k + |ys|) {
      RejoinPairClear(d, original, plan, xs, zs, ys, k);
    }
  }

  lemma SafePairs(p: Policy, route: seq<nat>, from: nat)
    requires forall l, r | 0 <= l < r < |route| && from <= r :: !TooClose(p, route[l], route[r], r - l)
    ensures SafeFrom(p, route, from)
  {
    hide TooClose;
  }

  lemma BackAvoids(d: Destination, original: seq<nat>, plan: BlockPlan, zs: seq<nat>, ys: seq<nat>)
    requires PlanFits(original, plan) && plan.rejoinsQueue && ReturnApart(d, original, plan) &&
             OriginalsOwned(d, original)
    requires Avoids(zs, d.unavailable) && Offered(d, 0, zs) && Avoids(ys, d.unavailable) && Offered(d, 1, ys)
    ensures Avoids(ys, AlsoUnavailable(d.unavailable, Entry(original, plan, zs)))
  {
    hide TooClose, AlsoUnavailable;
    OriginalSplits(original, plan);
    forall i | 0 <= i < |ys| ensures ys[i] !in Entry(original, plan, zs) {
      assert Free(d, 1, ys[i]);
      assert forall j | 0 <= j < |zs| :: Free(d, 0, zs[j]);
      assert ys[i] !in original && ys[i] !in zs;
    }
  }

  lemma BackPairClear(d: Destination, original: seq<nat>, plan: BlockPlan, xs: seq<nat>, zs: seq<nat>, ys: seq<nat>,
                      l: nat, r: nat)
    requires PlanFits(original, plan) && plan.rejoinsQueue && ReturnApart(d, original, plan) && |xs| == |zs|
    requires Avoids(zs, d.unavailable) && Offered(d, 0, zs) && Avoids(ys, d.unavailable) && Offered(d, 1, ys)
    requires var was := d.history + (Lead(original, plan) + xs + BlockOf(original, plan));
             SafeFrom(d.policy, was + ys, |was|)
    requires var now := d.history + (Lead(original, plan) + zs + BlockOf(original, plan));
             |now| <= r < |now + ys| && l < r
    ensures var now := d.history + (Lead(original, plan) + zs + BlockOf(original, plan)) + ys;
            !TooClose(d.policy, now[l], now[r], r - l)
  {
    hide TooClose, Lead, BlockOf, Tail;
    var base, block := |d.history| + |Lead(original, plan)|, BlockOf(original, plan);
    var was := d.history + (Lead(original, plan) + xs + block) + ys;
    var now := d.history + (Lead(original, plan) + zs + block) + ys;
    assert now[r] == was[r] == ys[r - base - |zs| - |block|];
    if base <= l < base + |zs| {
      var z, y := zs[l - base], now[r];
      assert now[l] == z && Free(d, 0, z) && Free(d, 1, y);
      TooCloseShrinks(d.policy, z, y, |block| + 1, r - l);
    } else {
      assert now[l] == was[l];
    }
  }

  lemma RejoinPairClear(d: Destination, original: seq<nat>, plan: BlockPlan, xs: seq<nat>, zs: seq<nat>, ys: seq<nat>,
                        k: nat)
    requires PlanFits(original, plan) && plan.rejoinsQueue && ReturnApart(d, original, plan) && |xs| == |zs|
    requires Avoids(zs, d.unavailable) && Offered(d, 0, zs) && BackSafe(d, original, plan, xs, ys)
    requires Context(d, original, plan) <= k < |d.history + (Lead(original, plan) + zs + BlockOf(original, plan))|
    ensures var now := d.history + (Lead(original, plan) + zs + BlockOf(original, plan));
            !TooClose(d.policy, now[k], Tail(original, plan)[0], |now| - k + |ys|)
  {
    hide TooClose, SafeFrom, Distinct, Lead, BlockOf, Tail, AlsoUnavailable;
    var base, block, rejoin := Context(d, original, plan), BlockOf(original, plan), Tail(original, plan)[0];
    var was, now := d.history + (Lead(original, plan) + xs + block), d.history + (Lead(original, plan) + zs + block);
    if k < base + |zs| {
      var z := zs[k - base];
      assert now[k] == z && Free(d, 0, z);
      TooCloseShrinks(d.policy, z, rejoin, |block| + 1, |now| - k + |ys|);
    } else {
      assert now[k] == was[k];
      assert !TooClose(d.policy, was[k], rejoin, |was| - k + |ys|);
    }
  }

  // ----- the least ways match -----

  /** Worst leg first, then sum. */
  predicate CostLe(a: Cost, b: Cost) {
    a.worst < b.worst || (a.worst == b.worst && a.sum <= b.sum)
  }

  lemma KeyLeCost(a: Key, b: Key)
    requires a.rank == b.rank && KeyLe(a, b)
    ensures CostLe(Cost(a.sum, a.worst), Cost(b.sum, b.worst))
  {
  }

  lemma LeastCostsLeast(r: Request, ignored: nat, least: seq<nat>, xs: seq<nat>)
    requires LeastFeasible(r, ignored, least) && Feasible(r, ignored, xs) && |least| == |xs|
    ensures WalkCost(r.score, r.routePrefix, least + [r.rightAnchor]).Some?
    ensures WalkCost(r.score, r.routePrefix, xs + [r.rightAnchor]).Some?
    ensures CostLe(WalkCost(r.score, r.routePrefix, least + [r.rightAnchor]).value,
                   WalkCost(r.score, r.routePrefix, xs + [r.rightAnchor]).value)
  {
    hide KeyLe, WalkCost, GeneratedSafe, RightAnchorSafe, AvailableTracks, GuidanceSum;
    KeyLeCost(PathKey(r, least), PathKey(r, xs));
  }

  /** An uncut search has the least path of every count that has any. */
  lemma LeastFound(r: Request, ignored: nat, xs: seq<nat>) returns (o: PathOption)
    requires Validate(r).None? && SearchUncut(r, ignored)
    requires r.config.variationPercent == 0 && r.config.alternativesPerCount == 1
    requires Feasible(r, ignored, xs) && |xs| <= r.config.maxIntermediates
    ensures o in Bridged(r, ignored) && |o.intermediates| == |xs| && LeastFeasible(r, ignored, o.intermediates)
  {
    hide Validate, LeastFeasible, Feasible, OptionsBelow, StructuralBound, SearchUncut;
    SearchKeepsLeast(r, ignored);
    o :| o in SearchOf(r, ignored).options && |o.intermediates| == |xs|;
  }

  /** The cost of the way in, and of the way back after any way in of the length. */
  ghost predicate Cheaper(d: Destination, original: seq<nat>, plan: BlockPlan, zs: seq<nat>, ws: seq<nat>,
                          xs: seq<nat>, ys: seq<nat>)
    requires PlanFits(original, plan)
  {
    var a, b := BoundaryCost(d, original, plan, zs, ws), BoundaryCost(d, original, plan, xs, ys);
    && a.Some? && b.Some? && a.value.worst <= b.value.worst
    && (!plan.rejoinsQueue ==> CostLe(a.value, b.value))
  }

  lemma CheaperIn(d: Destination, original: seq<nat>, plan: BlockPlan, zs: seq<nat>, xs: seq<nat>)
    requires PlanFits(original, plan) && GapsMatch(d, original, plan) && !plan.rejoinsQueue && |zs| == |xs|
    requires LeastFeasible(OutwardRequest(d, original, plan), 0, zs) &&
             Feasible(OutwardRequest(d, original, plan), 0, xs)
    ensures Cheaper(d, original, plan, zs, [], xs, [])
  {
    hide LeastFeasible, Feasible, WalkCost, Lead, BlockOf, OutwardRequest, GapsMatch, FixedAdjacent;
    OutwardAsked(d, original, plan);
    LeastCostsLeast(OutwardRequest(d, original, plan), 0, zs, xs);
  }

  lemma CheaperBoth(d: Destination, original: seq<nat>, plan: BlockPlan, zs: seq<nat>, ws: seq<nat>, xs: seq<nat>,
                    ys: seq<nat>)
    requires PlanFits(original, plan) && GapsMatch(d, original, plan) && plan.rejoinsQueue
    requires |zs| == |xs| && |ws| == |ys| && BoundaryCost(d, original, plan, xs, ys).Some?
    requires LeastFeasible(OutwardRequest(d, original, plan), 0, zs) &&
             Feasible(OutwardRequest(d, original, plan), 0, xs)
    requires var r := ReturnRequest(d, original, plan, zs);
             LeastFeasible(r, Context(d, original, plan), ws) && Feasible(r, Context(d, original, plan), ys)
    ensures Cheaper(d, original, plan, zs, ws, xs, ys)
  {
    hide LeastFeasible, Feasible, WalkCost, Lead, BlockOf, Tail, OutwardRequest, ReturnRequest, GapsMatch,
      FixedAdjacent;
    var block, rejoin := BlockOf(original, plan), Tail(original, plan)[0];
    OutwardAsked(d, original, plan);
    ReturnAsked(d, original, plan, zs);
    LeastCostsLeast(OutwardRequest(d, original, plan), 0, zs, xs);
    LeastCostsLeast(ReturnRequest(d, original, plan, zs), Context(d, original, plan), ws, ys);
    FixedWalk(d.adjacent, Lead(original, plan) + zs + block, Lead(original, plan) + xs + block, ys + [rejoin]);
  }

  /** Every good route is matched by least ways of its two lengths. */
  lemma GoodIsMatched(d: Destination, original: seq<nat>, plan: BlockPlan, xs: seq<nat>, ys: seq<nat>,
                      o: DestinationOption)
    returns (zs: seq<nat>, ws: seq<nat>)
    requires PlanFits(original, plan) && GapsMatch(d, original, plan) && Admitted(d, original, plan)
    requires OriginalsOwned(d, original) && Apart(d, original, plan)
    requires d.variationPercent == 0 && BridgesUncut(d, original, plan) && GoodVia(d, original, plan, xs, ys, o)
    ensures |zs| == |xs| && |ws| == |ys| && |zs| + |ws| <= plan.maxAddedTracks
    ensures LeastFeasible(OutwardRequest(d, original, plan), 0, zs) && LeastBack(d, original, plan, zs, ws)
    ensures Cheaper(d, original, plan, zs, ws, xs, ys)
  {
    hide LeastFeasible, Feasible, OutwardRequest, ReturnRequest, Bridged, Admitted, BridgesUncut, GoodVia, Apart,
      OriginalsOwned, GapsMatch, Cheaper, SearchUncut, Validate;
    var r := OutwardRequest(d, original, plan);
    OutwardIsFeasible(d, original, plan, xs, ys, o);
    GoodFits(d, original, plan, xs, ys, o);
    AskedOnce(d, original, plan, xs);
    OutwardAdmitted(d, original, plan);
    var entry := LeastFound(r, 0, xs);
    zs := entry.intermediates;
    if plan.rejoinsQueue {
      ReturnAdmitted(d, original, plan, entry);
      ReturnStaysFeasible(d, original, plan, xs, zs, ys, o);
      AskedOnce(d, original, plan, zs);
      var way := LeastFound(ReturnRequest(d, original, plan, zs), Context(d, original, plan), ys);
      ws := way.intermediates;
      GoodCosts(d, original, plan, xs, ys, o);
      CheaperBoth(d, original, plan, zs, ws, xs, ys);
    } else {
      GoodCosts(d, original, plan, xs, ys, o);
      ws := [];
      CheaperIn(d, original, plan, zs, xs);
    }
  }

  lemma GoodCosts(d: Destination, original: seq<nat>, plan: BlockPlan, xs: seq<nat>, ys: seq<nat>, o: DestinationOption)
    requires PlanFits(original, plan) && GoodVia(d, original, plan, xs, ys, o)
    ensures BoundaryCost(d, original, plan, xs, ys) == Some(Cost(o.sum, o.worst)) && o.added == |xs| + |ys|
    ensures !plan.rejoinsQueue ==> ys == []
  {
    hide SafeOption, BoundaryCost;
  }

  lemma OutwardAdmitted(d: Destination, original: seq<nat>, plan: BlockPlan)
    requires PlanFits(original, plan) && GapsMatch(d, original, plan) && Admitted(d, original, plan)
    requires BridgesUncut(d, original, plan)
    ensures Validate(OutwardRequest(d, original, plan)).None? && SearchUncut(OutwardRequest(d, original, plan), 0)
  {
    hide Validate, SearchUncut, OutwardRequest, OutwardRefusal, WaysIn, ReturnRefusal;
    AdmittedOutward(d, original, plan);
  }

  lemma ReturnAdmitted(d: Destination, original: seq<nat>, plan: BlockPlan, entry: PathOption)
    requires PlanFits(original, plan) && GapsMatch(d, original, plan) && Admitted(d, original, plan) &&
             plan.rejoinsQueue
    requires BridgesUncut(d, original, plan) && entry in Bridged(OutwardRequest(d, original, plan), 0)
    ensures var r := ReturnRequest(d, original, plan, entry.intermediates);
            Validate(r).None? && SearchUncut(r, Context(d, original, plan))
  {
    hide Validate, SearchUncut, OutwardRequest, ReturnRequest, Bridged, OutwardRefusal, ReturnRefusal, GapsMatch;
    assert entry in WaysIn(d, original, plan) && !ReturnCut(d, original, plan, entry);
    AdmittedReturn(d, original, plan, entry.intermediates);
  }

  lemma ReturnStaysFeasible(d: Destination, original: seq<nat>, plan: BlockPlan, xs: seq<nat>, zs: seq<nat>,
                            ys: seq<nat>, o: DestinationOption)
    requires PlanFits(original, plan) && GapsMatch(d, original, plan) && plan.rejoinsQueue && |xs| == |zs|
    requires OriginalsOwned(d, original) && Apart(d, original, plan) && GoodVia(d, original, plan, xs, ys, o)
    requires LeastFeasible(OutwardRequest(d, original, plan), 0, zs)
    ensures Feasible(ReturnRequest(d, original, plan, zs), Context(d, original, plan), ys)
  {
    hide Feasible, OutwardRequest, ReturnRequest, GoodVia, Apart, OriginalsOwned, GapsMatch, OutwardSafe, BackSafe,
      KeyLe, WalkCost, FixedAdjacent, Lead, BlockOf, Tail;
    ReturnIsFeasible(d, original, plan, xs, ys, o);
    OutwardFacts(d, original, plan, zs);
    BackFacts(d, original, plan, xs, ys);
    BackFacts(d, original, plan, zs, ys);
    BackStaysSafe(d, original, plan, xs, zs, ys);
    ReturnAsked(d, original, plan, xs);
    ReturnAsked(d, original, plan, zs);
    FixedWalk(d.adjacent, Lead(original, plan) + xs + BlockOf(original, plan),
              Lead(original, plan) + zs + BlockOf(original, plan), ys + [Tail(original, plan)[0]]);
  }

  /** The least ways make a route that passes, hence one the planner can choose. */
  lemma MatchIsChosen(d: Destination, original: seq<nat>, plan: BlockPlan, xs: seq<nat>, ys: seq<nat>,
                      o: DestinationOption,
                      zs: seq<nat>, ws: seq<nat>)
    returns (b: DestinationOption)
    requires PlanFits(original, plan) && GapsMatch(d, original, plan) && OriginalsOwned(d, original)
    requires Apart(d, original, plan) && GoodVia(d, original, plan, xs, ys, o)
    requires |zs| == |xs| && |ws| == |ys| && |zs| + |ws| <= plan.maxAddedTracks
    requires LeastFeasible(OutwardRequest(d, original, plan), 0, zs) && LeastBack(d, original, plan, zs, ws)
    requires Cheaper(d, original, plan, zs, ws, xs, ys)
    ensures Chosen(d, original, plan, zs, ws, b)
    ensures b.added == o.added && b.worst <= o.worst
    ensures !plan.rejoinsQueue ==> CostLe(Cost(b.sum, b.worst), Cost(o.sum, o.worst))
  {
    hide Feasible, OutwardRequest, ReturnRequest, Apart, OriginalsOwned, GapsMatch, OutwardSafe, BackSafe, KeyLe,
      Passes, BoundaryCost, Lead, BlockOf, Tail, BlockClear, BridgesRepeatSafe, RejoinClear, Shape, CostLe;
    GoodCosts(d, original, plan, xs, ys, o);
    var cost := BoundaryCost(d, original, plan, zs, ws).value;
    b := DestinationOption(|zs| + |ws|, Lead(original, plan) + zs + BlockOf(original, plan) + ws + Tail(original, plan),
                           cost.sum, cost.worst);
    OutwardFacts(d, original, plan, zs);
    if plan.rejoinsQueue {
      BackFacts(d, original, plan, zs, ws);
    }
    LaterIsClear(d, original, plan);
    BlockStaysClear(d, original, plan, xs, zs);
    WaysPass(d, original, plan, zs, ws, b);
  }

  lemma LaterIsClear(d: Destination, original: seq<nat>, plan: BlockPlan)
    requires PlanFits(original, plan) && Apart(d, original, plan)
    ensures LaterBlockClear(d, original, plan)
  {
  }

  lemma BestOfChosen(d: Destination, original: seq<nat>, plan: BlockPlan, best: seq<DestinationOption>,
                     zs: seq<nat>, ws: seq<nat>, c: DestinationOption)
    returns (b: DestinationOption)
    requires PlanFits(original, plan) && GapsMatch(d, original, plan)
    requires BestChosen(d, original, plan, best) && Chosen(d, original, plan, zs, ws, c)
    ensures b in best && b.added == c.added && CostLe(Cost(b.sum, b.worst), Cost(c.sum, c.worst))
  {
    hide Chosen, KeyLe, GapsMatch;
    b :| b in best && b.added == c.added && KeyLe(OptionKeyOf(b), OptionKeyOf(c));
    KeyLeCost(OptionKeyOf(b), OptionKeyOf(c));
  }

  /** When bridges cannot come too close to what follows, and each boundary has
      its own candidates, keeping one bridge a count loses no good route: every
      one is matched by an option of its count with no greater worst leg and,
      without a rejoin anchor, by worst leg and sum. */
  lemma NothingIsMissed(d: Destination, original: seq<nat>, plan: BlockPlan, best: seq<DestinationOption>,
                        o: DestinationOption)
    returns (b: DestinationOption)
    requires PlanFits(original, plan) && GapsMatch(d, original, plan) && Admitted(d, original, plan)
    requires OriginalsOwned(d, original) && Apart(d, original, plan)
    requires d.variationPercent == 0 && BridgesUncut(d, original, plan) && BestChosen(d, original, plan, best)
    requires GoodDestination(d, original, plan, o)
    ensures b in best && b.added == o.added && b.worst <= o.worst
    ensures !plan.rejoinsQueue ==> CostLe(Cost(b.sum, b.worst), Cost(o.sum, o.worst))
  {
    hide GoodVia, Chosen, Apart, OriginalsOwned, GapsMatch, Admitted, BridgesUncut, LeastFeasible, LeastBack, Cheaper,
      OutwardRequest, BestChosen;
    var xs, ys: seq<nat> :| GoodVia(d, original, plan, xs, ys, o);
    var zs, ws := GoodIsMatched(d, original, plan, xs, ys, o);
    var c := MatchIsChosen(d, original, plan, xs, ys, o, zs, ws);
    b := BestOfChosen(d, original, plan, best, zs, ws, c);
  }

  // ----- exactly when nothing is missed -----

  /** Every good route is matched by worst leg and sum. */
  ghost predicate MatchedByCost(d: Destination, original: seq<nat>, plan: BlockPlan, best: seq<DestinationOption>)
    requires PlanFits(original, plan)
  {
    forall o | GoodDestination(d, original, plan, o) ::
      exists b :: b in best && b.added == o.added && CostLe(Cost(b.sum, b.worst), Cost(o.sum, o.worst))
  }

  /** Wherever a good route exists, the least way in of its length passes the checks. */
  ghost predicate LeastWaysPass(d: Destination, original: seq<nat>, plan: BlockPlan)
    requires PlanFits(original, plan) && GapsMatch(d, original, plan)
  {
    forall o | GoodDestination(d, original, plan, o) ::
      exists outward: seq<nat> :: |outward| == o.added && LeastPasses(d, original, plan, outward)
  }

  /** Without a rejoin anchor the planner matches every good route exactly when
      the one bridge sequence it keeps of each length passes the final checks. */
  lemma MatchedExactly(d: Destination, original: seq<nat>, plan: BlockPlan, best: seq<DestinationOption>)
    requires PlanFits(original, plan) && GapsMatch(d, original, plan) && !plan.rejoinsQueue &&
             OriginalsOwned(d, original)
    requires BestChosen(d, original, plan, best)
    ensures MatchedByCost(d, original, plan, best) <==> LeastWaysPass(d, original, plan)
  {
    hide BestChosen, GoodDestination, LeastPasses, CostLe, OriginalsOwned, GapsMatch;
    if MatchedByCost(d, original, plan, best) {
      forall o | GoodDestination(d, original, plan, o)
        ensures exists outward: seq<nat> :: |outward| == o.added && LeastPasses(d, original, plan, outward)
      {
        CountIsOffered(d, original, plan, best, o.added);
      }
    }
    if LeastWaysPass(d, original, plan) {
      forall o | GoodDestination(d, original, plan, o)
        ensures exists b :: b in best && b.added == o.added && CostLe(Cost(b.sum, b.worst), Cost(o.sum, o.worst))
      {
        var outward: seq<nat> :| |outward| == o.added && LeastPasses(d, original, plan, outward);
        var b := PassingMatches(d, original, plan, best, outward, o);
      }
    }
  }

  lemma PassingMatches(d: Destination, original: seq<nat>, plan: BlockPlan, best: seq<DestinationOption>,
                       outward: seq<nat>, o: DestinationOption)
    returns (b: DestinationOption)
    requires PlanFits(original, plan) && GapsMatch(d, original, plan) && !plan.rejoinsQueue &&
             OriginalsOwned(d, original)
    requires BestChosen(d, original, plan, best) && GoodDestination(d, original, plan, o)
    requires |outward| == o.added && LeastPasses(d, original, plan, outward)
    ensures b in best && b.added == o.added && CostLe(Cost(b.sum, b.worst), Cost(o.sum, o.worst))
  {
    hide GoodVia, OriginalsOwned, GapsMatch, Passes, OutwardRequest, LeastFeasible, Feasible, BoundaryCost, Cheaper,
      Lead, BlockOf, Tail, BestChosen;
    var xs, ys: seq<nat> :| GoodVia(d, original, plan, xs, ys, o);
    OutwardIsFeasible(d, original, plan, xs, ys, o);
    GoodCosts(d, original, plan, xs, ys, o);
    var c := PassesIsChosen(d, original, plan, outward);
    CheaperIn(d, original, plan, outward, xs);
    CheaperCost(d, original, plan, outward, xs);
    b := BestOfChosen(d, original, plan, best, outward, [], c);
  }

  lemma CheaperCost(d: Destination, original: seq<nat>, plan: BlockPlan, zs: seq<nat>, xs: seq<nat>)
    requires PlanFits(original, plan) && !plan.rejoinsQueue && Cheaper(d, original, plan, zs, [], xs, [])
    ensures var a, b := BoundaryCost(d, original, plan, zs, []), BoundaryCost(d, original, plan, xs, []);
            a.Some? && b.Some? && CostLe(a.value, b.value)
  {
    hide BoundaryCost;
  }
}
