/** The ordering bounds of partial paths: over a distance that obeys the
    triangle inequality they never exceed what a completion really costs. */
module LowerBounds {
  import opened Wrappers
  import opened Repeats
  import opened AnchoredPath
  import opened AnchoredSearch

  /** Two finite legs leave a finite shortcut that is no longer. */
  ghost predicate Triangle(adjacent: (nat, nat) -> Option<Distance>) {
    forall a, b, c :: adjacent(a, b).Some? && adjacent(b, c).Some? ==>
      adjacent(a, c).Some? && adjacent(a, c).value <= adjacent(a, b).value + adjacent(b, c).value
  }

  lemma TriangleAt(adjacent: (nat, nat) -> Option<Distance>, a: nat, b: nat, c: nat)
    requires Triangle(adjacent) && adjacent(a, b).Some? && adjacent(b, c).Some?
    ensures adjacent(a, c).Some? && adjacent(a, c).value <= adjacent(a, b).value + adjacent(b, c).value
  {
  }

  lemma AddLegJoins(a: Option<Cost>, b: Option<Cost>, leg: Option<Distance>)
    ensures AddLeg(AddCosts(a, b), leg) == AddCosts(a, AddLeg(b, leg))
  {
  }

  lemma {:induction false} WalkCostJoins(score: Scorer, prefix: seq<nat>, xs: seq<nat>, ys: seq<nat>)
    ensures WalkCost(score, prefix, xs + ys) == AddCosts(WalkCost(score, prefix, xs), WalkCost(score, prefix + xs, ys))
  {
    if ys == [] {
      assert xs + ys == xs;
      WalkCostNonNegative(score, prefix, xs);
    } else {
      hide WalkCost, AddCosts;
      var before, last := ys[..|ys| - 1], ys[|ys| - 1];
      WalkCostJoins(score, prefix, xs, before);
      WalkCostJoinsLeg(score, prefix, xs, before, last);
      assert ys == before + [last];
    }
  }

  lemma WalkCostJoinsLeg(score: Scorer, prefix: seq<nat>, xs: seq<nat>, ys: seq<nat>, y: nat)
    requires WalkCost(score, prefix, xs + ys) == AddCosts(WalkCost(score, prefix, xs), WalkCost(score, prefix + xs, ys))
    ensures WalkCost(score, prefix, xs + (ys + [y])) ==
            AddCosts(WalkCost(score, prefix, xs), WalkCost(score, prefix + xs, ys + [y]))
  {
    hide WalkCost, AddCosts, AddLeg;
    WalkCostStep(score, prefix, xs + ys, y);
    WalkCostStep(score, prefix + xs, ys, y);
    AddLegJoins(WalkCost(score, prefix, xs), WalkCost(score, prefix + xs, ys), score(prefix + xs + ys, y));
    assert xs + (ys + [y]) == xs + ys + [y];
    assert prefix + xs + ys == prefix + (xs + ys);
  }

  lemma {:induction false} WalkCostNonNegative(score: Scorer, prefix: seq<nat>, xs: seq<nat>)
    ensures var cost := WalkCost(score, prefix, xs); cost.Some? ==> cost.value.sum >= 0.0 && cost.value.worst >= 0.0
  {
    if xs != [] {
      WalkCostNonNegative(score, prefix, xs[..|xs| - 1]);
    }
  }

  /** The shortcut to the end of a walk is at most the walk's sum, and that is
      at most its length in worst legs. */
  lemma {:induction false} ShortcutBelowWalk(adjacent: (nat, nat) -> Option<Distance>, prefix: seq<nat>, xs: seq<nat>)
    requires Triangle(adjacent) && prefix != [] && xs != []
    requires WalkCost(FixedAdjacent(adjacent), prefix, xs).Some?
    ensures var cost := WalkCost(FixedAdjacent(adjacent), prefix, xs).value;
            var shortcut := adjacent(prefix[|prefix| - 1], xs[|xs| - 1]);
            && shortcut.Some? && shortcut.value <= cost.sum
            && cost.sum <= |xs| as real * cost.worst
  {
    hide Triangle, FixedAdjacent;
    var n := |xs| - 1;
    var score, first, before := FixedAdjacent(adjacent), prefix[|prefix| - 1], xs[..n];
    assert xs == before + [xs[n]];
    LastLeg(adjacent, prefix, before, xs[n]);
    if n > 0 {
      ShortcutBelowWalk(adjacent, prefix, before);
      assert before[|before| - 1] == xs[n - 1];
      TriangleAt(adjacent, first, xs[n - 1], xs[n]);
      OneMoreLeg(n, WalkCost(score, prefix, before).value, adjacent(xs[n - 1], xs[n]).value,
                 WalkCost(score, prefix, xs).value);
    }
  }

  lemma LastLeg(adjacent: (nat, nat) -> Option<Distance>, prefix: seq<nat>, before: seq<nat>, next: nat)
    requires prefix != []
    ensures WalkCost(FixedAdjacent(adjacent), prefix, before + [next]) ==
            AddLeg(WalkCost(FixedAdjacent(adjacent), prefix, before),
                   adjacent(if before == [] then prefix[|prefix| - 1] else before[|before| - 1], next))
  {
    hide FixedAdjacent;
    WalkCostStep(FixedAdjacent(adjacent), prefix, before, next);
    FixedLeg(adjacent, prefix, before, next);
  }

  lemma FixedLeg(adjacent: (nat, nat) -> Option<Distance>, prefix: seq<nat>, before: seq<nat>, next: nat)
    requires prefix != []
    ensures FixedAdjacent(adjacent)(prefix + before, next) ==
            adjacent(if before == [] then prefix[|prefix| - 1] else before[|before| - 1], next)
  {
    var walked := prefix + before;
    assert walked[|walked| - 1] == if before == [] then prefix[|prefix| - 1] else before[|before| - 1];
  }

  lemma OneMoreLeg(n: nat, before: Cost, leg: real, cost: Cost)
    requires before.sum <= n as real * before.worst
    requires cost == Cost(before.sum + leg, MaxReal(before.worst, leg))
    ensures cost.sum <= (n + 1) as real * cost.worst
  {
    ScaledGrows(n, before.worst, cost.worst);
    assert (n + 1) as real * cost.worst == n as real * cost.worst + cost.worst;
  }

  lemma ScaledGrows(n: nat, a: real, b: real)
    requires a <= b
    ensures n as real * a <= n as real * b
  {
  }

  lemma ShareBelow(total: real, edges: nat, worst: real)
    requires edges > 0 && total <= edges as real * worst
    ensures total / edges as real <= worst
  {
  }

  /** The shortcut to the end of a walk is at most its sum; shared over the
      edges, at most its worst leg. */
  lemma ShortcutShares(adjacent: (nat, nat) -> Option<Distance>, prefix: seq<nat>, xs: seq<nat>)
    requires Triangle(adjacent) && prefix != [] && xs != []
    requires WalkCost(FixedAdjacent(adjacent), prefix, xs).Some?
    ensures var cost := WalkCost(FixedAdjacent(adjacent), prefix, xs).value;
            var shortcut := FixedAdjacent(adjacent)(prefix, xs[|xs| - 1]);
            shortcut.Some? && shortcut.value <= cost.sum && shortcut.value / |xs| as real <= cost.worst
  {
    hide Triangle, WalkCost;
    ShortcutBelowWalk(adjacent, prefix, xs);
    ShareBelow(adjacent(prefix[|prefix| - 1], xs[|xs| - 1]).value, |xs|,
               WalkCost(FixedAdjacent(adjacent), prefix, xs).value.worst);
  }

  /** Whatever completes the path, its sum and its worst leg are at least the
      bounds computed for the part before it. */
  lemma CompletionCostsMore(r: Request,
                            adjacent: (nat, nat) -> Option<Distance>, xs: seq<nat>, ys: seq<nat>, sum: real,
                                worst: real, onward: Option<Distance>)
    requires r.score == FixedAdjacent(adjacent) && Triangle(adjacent) && r.routePrefix != []
    requires WalkCost(r.score, r.routePrefix, xs) == Some(Cost(sum, worst))
    requires onward == r.score(r.routePrefix + xs, r.rightAnchor)
    requires WalkCost(r.score, r.routePrefix, xs + ys + [r.rightAnchor]).Some?
    ensures var cost := WalkCost(r.score, r.routePrefix, xs + ys + [r.rightAnchor]).value;
            var remaining: real := if onward.Some? then onward.value else 0.0;
            sum + remaining <= cost.sum && MaxReal(worst, remaining / (|ys| + 1) as real) <= cost.worst
  {
    hide Triangle, WalkCost, FixedAdjacent;
    var rest := ys + [r.rightAnchor];
    assert xs + rest == xs + ys + [r.rightAnchor];
    WalkCostJoins(r.score, r.routePrefix, xs, rest);
    ShortcutShares(adjacent, r.routePrefix + xs, rest);
  }

  /** The bounds of a path that just took a step are admissible. */
  lemma StepBoundsAreAdmissible(r: Request,
                                adjacent: (nat, nat) -> Option<Distance>, requested: nat, s: PathState, x: nat,
                                    ys: seq<nat>)
    requires r.score == FixedAdjacent(adjacent) && Triangle(adjacent) && r.routePrefix != []
    requires |s.intermediates| < requested && Represents(r, s)
    requires Extend(r, requested, |s.intermediates|, s, x).Some?
    requires |s.intermediates| + 1 + |ys| == requested
    requires WalkCost(r.score, r.routePrefix, s.intermediates + [x] + ys + [r.rightAnchor]).Some?
    ensures var next := Extend(r, requested, |s.intermediates|, s, x).value;
            var cost := WalkCost(r.score, r.routePrefix, next.intermediates + ys + [r.rightAnchor]).value;
            next.lowerSum <= cost.sum && next.lowerWorst <= cost.worst
  {
    hide KeysTooClose, PositionSafe, WalkCost, GuidanceSum, GuidanceOf;
    var next := Extend(r, requested, |s.intermediates|, s, x).value;
    WalkCostStep(r.score, r.routePrefix, s.intermediates, x);
    assert r.routePrefix + s.intermediates + [x] == r.routePrefix + (s.intermediates + [x]);
    CompletionCostsMore(r, adjacent, next.intermediates, ys, next.sum, next.worst,
                        r.score(r.routePrefix + next.intermediates, r.rightAnchor));
  }

  /** So are the bounds of the state that every count starts from. */
  lemma StartBoundsAreAdmissible(r: Request, adjacent: (nat, nat) -> Option<Distance>, requested: nat, ys: seq<nat>)
    requires r.score == FixedAdjacent(adjacent) && Triangle(adjacent) && r.routePrefix != []
    requires |ys| == requested && WalkCost(r.score, r.routePrefix, ys + [r.rightAnchor]).Some?
    ensures var start := StartState(r.score(r.routePrefix, r.rightAnchor), requested);
            var cost := WalkCost(r.score, r.routePrefix, ys + [r.rightAnchor]).value;
            start.lowerSum <= cost.sum && start.lowerWorst <= cost.worst
  {
    hide Triangle, FixedAdjacent;
    assert WalkCost(r.score, r.routePrefix, []) == Some(Cost(0.0, 0.0));
    hide WalkCost;
    assert r.routePrefix + [] == r.routePrefix && [] + ys == ys;
    CompletionCostsMore(r, adjacent, [], ys, 0.0, 0.0, r.score(r.routePrefix, r.rightAnchor));
  }
}
