/** Plans over several immutable source gaps: the route they spell, what makes
    one good, and how a plan grows by one gap. */
module GapPlans {
  import opened Wrappers
  import opened Repeats
  import opened RepeatSpacing
  import opened Ordering
  import opened AnchoredPath
  import opened AnchoredSearch

  datatype Gap = Gap(left: nat, right: nat, candidates: seq<Candidate>)

  datatype Limits = Limits(candidateLimit: nat, beamWidth: nat, alternativesPerGap: nat, variationPercent: nat)

  /** `routeVariation` stands for the seeded mixing of a route. */
  datatype Problem = Problem(
    source: seq<nat>, history: seq<nat>, gaps: seq<Gap>, policy: Policy,
    limits: Limits, score: Scorer, routeVariation: seq<nat> -> nat)

  ghost predicate WellFormed(q: Problem) {
    && |q.source| >= 2
    && |q.gaps| == |q.source| - 1
    && forall g {:trigger q.gaps[g]} | 0 <= g < |q.gaps| ::
         q.gaps[g].left == q.source[g] && q.gaps[g].right == q.source[g + 1]
  }

  /** The route that places `picks[g]` after source position `g`. */
  function Assemble(source: seq<nat>, picks: seq<seq<nat>>): (route: seq<nat>)
    requires |picks| < |source|
    ensures route != [] && route[|route| - 1] == source[|picks|]
  {
    if picks == [] then [source[0]]
    else Assemble(source, picks[..|picks| - 1]) + picks[|picks| - 1] + [source[|picks|]]
  }

  function Flatten(picks: seq<seq<nat>>): seq<nat> {
    if picks == [] then [] else Flatten(picks[..|picks| - 1]) + picks[|picks| - 1]
  }

  function Lengths(picks: seq<seq<nat>>): seq<nat> {
    seq(|picks|, g requires 0 <= g < |picks| => |picks[g]|)
  }

  /** The anchored search one state runs for one gap. */
  function GapRequest(q: Problem, route: seq<nat>, g: nat, maxIntermediates: nat): Request
    requires g < |q.gaps|
  {
    Request(route, q.history, q.source + route, q.gaps[g].left, q.gaps[g].right, q.gaps[g].candidates, q.policy,
            Config(maxIntermediates, q.limits.candidateLimit, q.limits.beamWidth, q.limits.alternativesPerGap, 0),
            q.score, q.routeVariation)
  }

  /** Sum and worst leg over all gaps planned so far. */
  function PlanCost(q: Problem, picks: seq<seq<nat>>): Option<Cost>
    requires |picks| < |q.source|
  {
    if picks == [] then Some(Cost(0.0, 0.0))
    else
      var n := |picks| - 1;
      AddCosts(PlanCost(q, picks[..n]),
               WalkCost(q.score, Assemble(q.source, picks[..n]), picks[n] + [q.source[n + 1]]))
  }

  function PlanGuidance(q: Problem, picks: seq<seq<nat>>): real
    requires |picks| <= |q.gaps| && |picks| < |q.source|
  {
    if picks == [] then 0.0
    else
      var n := |picks| - 1;
      PlanGuidance(q, picks[..n]) + GuidanceSum(GapRequest(q, Assemble(q.source, picks[..n]), n, 0), picks[n])
  }

  ghost predicate NamedByGap(gap: Gap, pick: seq<nat>) {
    forall i | 0 <= i < |pick| :: exists k :: 0 <= k < |gap.candidates| && gap.candidates[k].track == pick[i]
  }

  predicate Avoids(xs: seq<nat>, source: seq<nat>) {
    forall i | 0 <= i < |xs| :: xs[i] !in source
  }

  /** Every pick is named by its gap; over all gaps picks are distinct and new. */
  ghost predicate Eligible(q: Problem, picks: seq<seq<nat>>)
    requires |picks| <= |q.gaps|
  {
    && (forall g | 0 <= g < |picks| :: NamedByGap(q.gaps[g], picks[g]))
    && Distinct(Flatten(picks)) && Avoids(Flatten(picks), q.source)
  }

  /** Everything a plan over the first gaps owes, apart from how the first
      source track sits after the listening history. */
  ghost predicate GoodPrefix(q: Problem, picks: seq<seq<nat>>) {
    && WellFormed(q) && |picks| <= |q.gaps|
    && Eligible(q, picks)
    && PlanCost(q, picks).Some?
    && SafeFrom(q.policy, q.history + Assemble(q.source, picks), |q.history| + 1)
  }

  /** A complete repeat-safe insertion of distinct non-source candidates with
      finite legs: the reference against which every planner is judged. */
  ghost predicate GoodPlan(q: Problem, picks: seq<seq<nat>>) {
    && WellFormed(q) && |picks| == |q.gaps|
    && Eligible(q, picks)
    && PlanCost(q, picks).Some?
    && SafeFrom(q.policy, q.history + Assemble(q.source, picks), |q.history|)
  }

  /** The listening history leaves room for the first source track. */
  ghost predicate HeadClear(q: Problem)
    requires q.source != []
  {
    forall i | 0 <= i < |q.history| :: !TooClose(q.policy, q.history[i], q.source[0], |q.history| - i)
  }

  lemma {:induction false} AssembleHead(source: seq<nat>, picks: seq<seq<nat>>)
    requires |picks| < |source|
    ensures Assemble(source, picks)[0] == source[0]
  {
    if picks != [] {
      AssembleHead(source, picks[..|picks| - 1]);
    }
  }

  lemma HeadDecides(q: Problem, route: seq<nat>)
    requires q.source != [] && route != [] && route[0] == q.source[0]
    ensures SafeFrom(q.policy, q.history + route, |q.history|) <==>
            SafeFrom(q.policy, q.history + route, |q.history| + 1) && HeadClear(q)
  {
    hide TooClose;
    var full, n := q.history + route, |q.history|;
    if SafeFrom(q.policy, full, n) {
      forall i | 0 <= i < n ensures !TooClose(q.policy, q.history[i], q.source[0], n - i) {
        assert full[i] == q.history[i] && full[n] == q.source[0];
      }
    }
  }

  lemma GoodPlanIsGoodPrefix(q: Problem, picks: seq<seq<nat>>)
    ensures GoodPlan(q, picks) <==> GoodPrefix(q, picks) && |picks| == |q.gaps| && HeadClear(q)
  {
    hide SafeFrom, HeadClear, NamedByGap, Avoids, PlanCost;
    if WellFormed(q) && |picks| == |q.gaps| {
      AssembleHead(q.source, picks);
      HeadDecides(q, Assemble(q.source, picks));
    }
  }

  // ----- growing by one gap -----

  lemma {:induction false} AssembleMembers(source: seq<nat>, picks: seq<seq<nat>>, x: nat)
    requires |picks| < |source|
    ensures x in Assemble(source, picks) ==> x in source || x in Flatten(picks)
    ensures x in Flatten(picks) ==> x in Assemble(source, picks)
  {
    if picks != [] {
      AssembleMembers(source, picks[..|picks| - 1], x);
    }
  }

  /** A route stays safe over one gap exactly when the pair tests of that gap hold. */
  lemma SafeExtends(r: Request, xs: seq<nat>, from: nat)
    requires from <= |RepeatPrefix(r)|
    ensures SafeFrom(r.policy, FullRoute(r, xs), from) <==>
            SafeFrom(r.policy, RepeatPrefix(r), from) && PairsSafe(r, 0, xs)
  {
    hide TooClose;
    if SafeFrom(r.policy, FullRoute(r, xs), from) {
      SafeSplits(r, xs, from);
    }
    if SafeFrom(r.policy, RepeatPrefix(r), from) && PairsSafe(r, 0, xs) {
      SafeJoins(r, xs, from);
    }
  }

  lemma SafeSplits(r: Request, xs: seq<nat>, from: nat)
    requires from <= |RepeatPrefix(r)| && SafeFrom(r.policy, FullRoute(r, xs), from)
    ensures SafeFrom(r.policy, RepeatPrefix(r), from) && PairsSafe(r, 0, xs)
  {
    hide TooClose;
    var full, context, visited := FullRoute(r, xs), RepeatPrefix(r), Visited(r, xs);
    var base := |context|;
    forall i, j | 0 <= i < j < base && from <= j ensures !TooClose(r.policy, context[i], context[j], j - i) {
      assert full[i] == context[i] && full[j] == context[j];
    }
    forall i, j | 0 <= i < j < |visited| && base <= j ensures !TooClose(r.policy, visited[i], visited[j], j - i) {
      assert full[i] == visited[i] && full[j] == visited[j];
    }
    forall i | 0 <= i < |xs| ensures !TooClose(r.policy, xs[i], r.rightAnchor, |xs| - i) {
      assert full[base + i] == xs[i] && full[base + |xs|] == r.rightAnchor;
      assert base + |xs| - (base + i) == |xs| - i;
    }
    forall k | 0 <= k < base ensures !TooClose(r.policy, context[k], r.rightAnchor, base - k + |xs|) {
      assert full[k] == context[k] && full[base + |xs|] == r.rightAnchor;
      assert base + |xs| - k == base - k + |xs|;
    }
  }

  lemma SafeJoins(r: Request, xs: seq<nat>, from: nat)
    requires from <= |RepeatPrefix(r)|
    requires SafeFrom(r.policy, RepeatPrefix(r), from) && PairsSafe(r, 0, xs)
    ensures SafeFrom(r.policy, FullRoute(r, xs), from)
  {
    hide TooClose;
    var full, context, visited := FullRoute(r, xs), RepeatPrefix(r), Visited(r, xs);
    var base := |context|;
    forall i, j | 0 <= i < j < |full| && from <= j ensures !TooClose(r.policy, full[i], full[j], j - i) {
      if j < base {
        assert full[i] == context[i] && full[j] == context[j];
      } else if j < base + |xs| {
        assert full[i] == visited[i] && full[j] == visited[j];
      } else if i < base {
        assert full[i] == context[i];
        assert j - i == base - i + |xs|;
      } else {
        assert full[i] == xs[i - base];
        assert j - i == |xs| - (i - base);
      }
    }
  }

  lemma DistinctJoin(xs: seq<nat>, ys: seq<nat>)
    ensures Distinct(xs + ys) <==>
            Distinct(xs) && Distinct(ys) && forall i | 0 <= i < |ys| :: ys[i] !in xs
  {
    var all := xs + ys;
    if Distinct(all) {
      forall i, j | 0 <= i < j < |xs| ensures xs[i] != xs[j] {
        assert all[i] != all[j];
      }
      forall i, j | 0 <= i < j < |ys| ensures ys[i] != ys[j] {
        assert all[|xs| + i] != all[|xs| + j];
      }
      forall i, k | 0 <= i < |ys| && 0 <= k < |xs| ensures ys[i] != xs[k] {
        assert all[k] != all[|xs| + i];
      }
    }
  }

  lemma AvoidsJoin(xs: seq<nat>, ys: seq<nat>, source: seq<nat>)
    ensures Avoids(xs + ys, source) <==> Avoids(xs, source) && Avoids(ys, source)
  {
    var all := xs + ys;
    if Avoids(all, source) {
      forall i | 0 <= i < |xs| ensures xs[i] !in source {
        assert all[i] !in source;
      }
      forall i | 0 <= i < |ys| ensures ys[i] !in source {
        assert all[|xs| + i] !in source;
      }
    }
  }

  /** Being available to the gap search: named by the gap, not a source track,
      not already inserted. */
  lemma PoolMeaning(q: Problem, picks: seq<seq<nat>>, pick: seq<nat>, budget: nat)
    requires WellFormed(q) && |picks| < |q.gaps|
    ensures var r := GapRequest(q, Assemble(q.source, picks), |picks|, budget);
            FromPool(pick, Available(r)) <==>
            && NamedByGap(q.gaps[|picks|], pick) && Avoids(pick, q.source)
            && forall i | 0 <= i < |pick| :: pick[i] !in Flatten(picks)
  {
    hide AvailableTracks;
    var g := |picks|;
    var r := GapRequest(q, Assemble(q.source, picks), g, budget);
    forall i | 0 <= i < |pick|
      ensures pick[i] in Available(r) <==>
              && (exists k :: 0 <= k < |q.gaps[g].candidates| && q.gaps[g].candidates[k].track == pick[i])
              && pick[i] !in q.source && pick[i] !in Flatten(picks)
    {
      AvailableMeaning(r, pick[i]);
      AssembleMembers(q.source, picks, pick[i]);
    }
  }

  lemma NamedStep(q: Problem, picks: seq<seq<nat>>, pick: seq<nat>)
    requires |picks| < |q.gaps|
    ensures (forall g | 0 <= g < |picks + [pick]| :: NamedByGap(q.gaps[g], (picks + [pick])[g])) <==>
            (forall g | 0 <= g < |picks| :: NamedByGap(q.gaps[g], picks[g])) && NamedByGap(q.gaps[|picks|], pick)
  {
    hide NamedByGap;
    var more := picks + [pick];
    if forall g | 0 <= g < |more| :: NamedByGap(q.gaps[g], more[g]) {
      forall g | 0 <= g < |picks| ensures NamedByGap(q.gaps[g], picks[g]) {
        assert more[g] == picks[g];
      }
      assert more[|picks|] == pick;
    }
  }

  lemma EligibleStep(q: Problem, picks: seq<seq<nat>>, pick: seq<nat>, budget: nat)
    requires WellFormed(q) && |picks| < |q.gaps|
    ensures Eligible(q, picks + [pick]) <==>
            Eligible(q, picks) && Distinct(pick) &&
            FromPool(pick, Available(GapRequest(q, Assemble(q.source, picks), |picks|, budget)))
  {
    hide NamedByGap, Avoids, FromPool, AvailableTracks, Distinct;
    assert (picks + [pick])[..|picks|] == picks;
    NamedStep(q, picks, pick);
    DistinctJoin(Flatten(picks), pick);
    AvoidsJoin(Flatten(picks), pick, q.source);
    PoolMeaning(q, picks, pick, budget);
  }

  lemma SafetyOfPath(r: Request, xs: seq<nat>, from: nat)
    requires from <= |RepeatPrefix(r)|
    ensures SafeFrom(r.policy, FullRoute(r, xs), from) <==>
            SafeFrom(r.policy, RepeatPrefix(r), from) &&
            GeneratedSafe(r, xs) && RightAnchorSafe(r.policy, FullRoute(r, xs), 0)
  {
    hide SafeFrom, PairsSafe, GeneratedSafe, RightAnchorSafe, RepeatPrefix, Visited;
    SafetyByPairs(r, 0, xs);
    SafeExtends(r, xs, from);
  }

  lemma SafetyStep(q: Problem, picks: seq<seq<nat>>, pick: seq<nat>, budget: nat)
    requires WellFormed(q) && |picks| < |q.gaps|
    ensures var r := GapRequest(q, Assemble(q.source, picks), |picks|, budget);
            SafeFrom(q.policy, q.history + Assemble(q.source, picks + [pick]), |q.history| + 1) <==>
            SafeFrom(q.policy, q.history + Assemble(q.source, picks), |q.history| + 1) &&
            GeneratedSafe(r, pick) && RightAnchorSafe(r.policy, FullRoute(r, pick), 0)
  {
    var r := GapRequest(q, Assemble(q.source, picks), |picks|, budget);
    assert r.policy == q.policy;
    hide SafeFrom, GeneratedSafe, RightAnchorSafe, Assemble, FullRoute, RepeatPrefix, GapRequest;
    RouteGrows(q, picks, pick, budget);
    SafetyOfPath(r, pick, |q.history| + 1);
  }

  lemma RouteGrows(q: Problem, picks: seq<seq<nat>>, pick: seq<nat>, budget: nat)
    requires WellFormed(q) && |picks| < |q.gaps|
    ensures var r := GapRequest(q, Assemble(q.source, picks), |picks|, budget);
            && RepeatPrefix(r) == q.history + Assemble(q.source, picks)
            && FullRoute(r, pick) == q.history + Assemble(q.source, picks + [pick])
            && Assemble(q.source, picks + [pick]) == r.routePrefix + pick + [r.rightAnchor]
  {
    hide Assemble;
    var anchor := q.gaps[|picks|].right;
    AssembleStep(q.source, picks, pick);
    Reassociate(q.history, Assemble(q.source, picks), pick, [anchor]);
  }

  lemma Reassociate<T>(a: seq<T>, b: seq<T>, c: seq<T>, d: seq<T>)
    ensures a + b + c + d == a + (b + c + d)
  {
  }

  lemma AssembleStep(source: seq<nat>, picks: seq<seq<nat>>, pick: seq<nat>)
    requires |picks| + 1 < |source|
    ensures Assemble(source, picks + [pick]) == Assemble(source, picks) + pick + [source[|picks| + 1]]
  {
    assert (picks + [pick])[..|picks|] == picks;
  }

  lemma CostStep(q: Problem, picks: seq<seq<nat>>, pick: seq<nat>)
    requires WellFormed(q) && |picks| < |q.gaps|
    ensures PlanCost(q, picks + [pick]) ==
            AddCosts(PlanCost(q, picks),
                     WalkCost(q.score, Assemble(q.source, picks), pick + [q.gaps[|picks|].right]))
  {
    hide WalkCost;
    assert (picks + [pick])[..|picks|] == picks;
  }

  /** A good prefix grows by exactly the paths its gap search calls feasible. */
  lemma GoodPrefixStep(q: Problem, picks: seq<seq<nat>>, pick: seq<nat>, budget: nat)
    requires WellFormed(q) && |picks| < |q.gaps|
    ensures GoodPrefix(q, picks + [pick]) <==>
            GoodPrefix(q, picks) &&
            Feasible(GapRequest(q, Assemble(q.source, picks), |picks|, budget), 0, pick)
  {
    hide SafeFrom, Eligible, GeneratedSafe, RightAnchorSafe, FromPool, AvailableTracks, Distinct, PlanCost, WalkCost,
      Assemble;
    EligibleStep(q, picks, pick, budget);
    SafetyStep(q, picks, pick, budget);
    CostStep(q, picks, pick);
  }

  lemma {:induction false} GoodPrefixShrinks(q: Problem, picks: seq<seq<nat>>, k: nat)
    requires GoodPrefix(q, picks) && k <= |picks|
    ensures GoodPrefix(q, picks[..k])
  {
    hide GoodPrefix, Feasible;
    if k < |picks| {
      var fewer, pick := picks[..|picks| - 1], picks[|picks| - 1];
      assert picks == fewer + [pick];
      assert WellFormed(q) && |picks| <= |q.gaps| by { GoodPrefixSize(q, picks); }
      GoodPrefixStep(q, fewer, pick, 0);
      GoodPrefixShrinks(q, fewer, k);
      assert fewer[..k] == picks[..k];
    } else {
      assert picks[..k] == picks;
    }
  }

  lemma GoodPrefixSize(q: Problem, picks: seq<seq<nat>>)
    requires GoodPrefix(q, picks)
    ensures WellFormed(q) && |picks| <= |q.gaps| && |picks| < |q.source|
  {
  }

  lemma EmptyPlanIsGood(q: Problem)
    requires WellFormed(q)
    ensures GoodPrefix(q, [])
  {
  }

  // ----- where the source tracks end up -----

  lemma {:induction false} LengthsBefore(picks: seq<seq<nat>>, k: nat)
    requires k <= |picks|
    ensures Before(Lengths(picks), k) == |Flatten(picks[..k])|
  {
    if k > 0 {
      LengthsBefore(picks, k - 1);
      assert picks[..k][..k - 1] == picks[..k - 1];
    }
  }

  /** Source position `k` stands `k` tracks and all earlier picks into the route. */
  lemma {:induction false} SourcePosition(source: seq<nat>, picks: seq<seq<nat>>, k: nat)
    requires k <= |picks| < |source|
    ensures var at := k + Before(Lengths(picks), k);
            && |Assemble(source, picks)| == |picks| + 1 + Before(Lengths(picks), |picks|)
            && at < |Assemble(source, picks)|
            && Assemble(source, picks)[at] == source[k]
  {
    if picks != [] {
      var n := |picks| - 1;
      var fewer, lengths := picks[..n], Lengths(picks);
      SourcePosition(source, fewer, if k <= n then k else n);
      assert lengths == Lengths(fewer) + [|picks[n]|];
      BeforePrefix(Lengths(fewer), [|picks[n]|], n);
      BeforePrefix(Lengths(fewer), [|picks[n]|], if k <= n then k else n);
    }
  }

  /** The gap lengths of a good prefix separate its source tracks. */
  lemma GoodPrefixSeparates(q: Problem, picks: seq<seq<nat>>)
    requires GoodPrefix(q, picks)
    ensures Separates(q.policy, q.source[..|picks| + 1], Lengths(picks))
  {
    hide TooClose, Eligible, PlanCost, Assemble;
    var lengths, part := Lengths(picks), q.source[..|picks| + 1];
    var full := q.history + Assemble(q.source, picks);
    forall l, r | 0 <= l < r < |part| ensures Clears(q.policy, part, lengths, l, r) {
      SourcePosition(q.source, picks, l);
      SourcePosition(q.source, picks, r);
      BeforeMonotone(lengths, l, r);
      var i, j := |q.history| + l + Before(lengths, l), |q.history| + r + Before(lengths, r);
      assert full[i] == part[l] && full[j] == part[r];
      assert !TooClose(q.policy, full[i], full[j], j - i);
    }
  }

  lemma SeparatesSuffix(p: Policy, source: seq<nat>, additions: seq<nat>, from: nat)
    requires Separates(p, source, additions) && from < |source|
    ensures Separates(p, source[from..], additions[from..])
    ensures Total(additions) == Before(additions, from) + Total(additions[from..])
  {
    hide TooClose;
    BeforeSuffix(additions, from, |additions| - from);
    forall l, r | 0 <= l < r < |source| - from ensures Clears(p, source[from..], additions[from..], l, r) {
      assert Clears(p, source, additions, from + l, from + r);
      BeforeSuffix(additions, from, l);
      BeforeSuffix(additions, from, r);
    }
  }

  /** Whatever bound holds for the rest of the source, a good plan pays it
      after gap `g`; capping gap `g` by it discards no plan within budget. */
  lemma LaterGapsPay(q: Problem, picks: seq<seq<nat>>, g: nat, minimum: nat)
    requires GoodPrefix(q, picks) && |picks| == |q.gaps| && g < |picks|
    requires forall additions: seq<nat> | Separates(q.policy, q.source[g + 1..], additions) ::
               minimum <= Total(additions)
    ensures |Flatten(picks[..g])| + |picks[g]| + minimum <= |Flatten(picks)|
  {
    hide Separates, Eligible, PlanCost, Assemble, SafeFrom;
    var lengths := Lengths(picks);
    GoodPrefixSeparates(q, picks);
    assert q.source[..|picks| + 1] == q.source;
    SeparatesSuffix(q.policy, q.source, lengths, g + 1);
    LengthsBefore(picks, g);
    LengthsBefore(picks, |picks|);
    assert picks[..|picks|] == picks;
  }

  // ----- a route spells one plan -----

  lemma {:induction false} FlattenShrinks(picks: seq<seq<nat>>, source: seq<nat>)
    requires picks != [] && Avoids(Flatten(picks), source)
    ensures Avoids(Flatten(picks[..|picks| - 1]), source) && Avoids(picks[|picks| - 1], source)
  {
    AvoidsJoin(Flatten(picks[..|picks| - 1]), picks[|picks| - 1], source);
  }

  lemma SameTail(source: seq<nat>, a: seq<nat>, x: seq<nat>, b: seq<nat>, y: seq<nat>)
    requires a != [] && b != [] && a[|a| - 1] in source && b[|b| - 1] in source
    requires Avoids(x, source) && Avoids(y, source) && a + x == b + y
    ensures a == b && x == y
  {
    var whole := a + x;
    assert whole[|a| - 1] == a[|a| - 1];
    assert (b + y)[|b| - 1] == b[|b| - 1];
    forall k | |a| <= k < |whole| ensures whole[k] !in source {
      assert whole[k] == x[k - |a|];
    }
    forall k | |b| <= k < |whole| ensures whole[k] !in source {
      assert (b + y)[k] == y[k - |b|];
    }
    assert a == (a + x)[..|a|] && b == (b + y)[..|b|];
    assert x == (a + x)[|a|..] && y == (b + y)[|b|..];
  }

  lemma {:induction false} AssembleInjective(source: seq<nat>, a: seq<seq<nat>>, b: seq<seq<nat>>)
    requires |a| == |b| < |source| && Avoids(Flatten(a), source) && Avoids(Flatten(b), source)
    requires Assemble(source, a) == Assemble(source, b)
    ensures a == b
  {
    if a != [] {
      var n := |a| - 1;
      var ra, rb := Assemble(source, a[..n]), Assemble(source, b[..n]);
      FlattenShrinks(a, source);
      FlattenShrinks(b, source);
      assert ra + a[n] == (ra + a[n] + [source[|a|]])[..|ra| + |a[n]|];
      assert rb + b[n] == (rb + b[n] + [source[|a|]])[..|rb| + |b[n]|];
      SameTail(source, ra, a[n], rb, b[n]);
      AssembleInjective(source, a[..n], b[..n]);
      assert a == a[..n] + [a[n]] && b == b[..n] + [b[n]];
    }
  }

  // ----- the final validator's view -----

  /** The members of `route` that are source tracks, in route order. */
  function RoutedSources(route: seq<nat>, source: seq<nat>): seq<nat> {
    if route == [] then []
    else
      var last := route[|route| - 1];
      RoutedSources(route[..|route| - 1], source) + if last in source then [last] else []
  }

  lemma {:induction false} RoutedSourcesSkip(route: seq<nat>, pick: seq<nat>, source: seq<nat>)
    requires Avoids(pick, source)
    ensures RoutedSources(route + pick, source) == RoutedSources(route, source)
  {
    if pick == [] {
      assert route + pick == route;
    } else {
      var n := |pick| - 1;
      assert (route + pick)[..|route| + n] == route + pick[..n];
      assert (route + pick)[|route| + n] == pick[n];
      RoutedSourcesSkip(route, pick[..n], source);
    }
  }

  lemma {:induction false} RoutedSourcesOfPlan(source: seq<nat>, picks: seq<seq<nat>>)
    requires |picks| < |source| && Avoids(Flatten(picks), source)
    ensures RoutedSources(Assemble(source, picks), source) == source[..|picks| + 1]
  {
    if picks != [] {
      var n := |picks| - 1;
      var before := Assemble(source, picks[..n]);
      FlattenShrinks(picks, source);
      RoutedSourcesOfPlan(source, picks[..n]);
      RoutedSourcesSkip(before, picks[n], source);
      assert (before + picks[n] + [source[n + 1]])[..|before| + |picks[n]|] == before + picks[n];
    }
  }
}
