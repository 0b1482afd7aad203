/** Planners that insert one track at a time into a route that keeps evolving:
    left-to-right automatic insertion, and the exact-count beam search. */
module EvolvingRoute {
  import opened Wrappers
  import opened Repeats
  import opened Ordering
  import opened AnchoredPath

  datatype Legs = Legs(left: Distance, right: Distance)

  /** `guidanceRank` stands for the provider order of the gap's shortlist. */
  datatype Gap = Gap(
    originalPosition: nat, left: nat, right: nat, directDistance: real, directPercentile: real,
    candidates: seq<nat>, guidanceRank: (seq<nat>, nat) -> nat)

  /** `legs` gives the distances on both sides of a candidate placed at a
      position; `percentile` places a distance in the frozen reference. */
  datatype Setting = Setting(
    policy: Policy, maxLegPercentile: real, maxDetourPercentile: real,
    legs: (seq<nat>, nat, nat) -> Legs, percentile: real -> real,
    variationPercent: nat, minimumPool: nat, variationKey: (seq<nat>, nat, nat) -> nat)

  datatype Evaluation = Evaluation(
    candidate: nat, leftDistance: real, rightDistance: real,
    maxPercentile: real, detourPercentile: real, repeatSafe: bool, accepted: bool)

  function Insert(route: seq<nat>, position: nat, x: nat): seq<nat>
    requires position <= |route|
  {
    route[..position] + [x] + route[position..]
  }

  /** Position just after the first place where the gap's anchors are neighbours. */
  function RoutePosition(route: seq<nat>, gap: Gap): (r: Option<nat>)
    ensures r.Some? ==> 0 < r.value < |route| && route[r.value - 1] == gap.left && route[r.value] == gap.right
    ensures r.Some? ==> forall k | 0 <= k < r.value - 1 :: !(route[k] == gap.left && route[k + 1] == gap.right)
    ensures r.None? ==> forall k | 0 <= k < |route| - 1 :: !(route[k] == gap.left && route[k + 1] == gap.right)
  {
    RoutePositionFrom(route, gap, 1)
  }

  function RoutePositionFrom(route: seq<nat>, gap: Gap, from: nat): (r: Option<nat>)
    requires from > 0
    ensures r.Some? ==> from <= r.value < |route| && route[r.value - 1] == gap.left && route[r.value] == gap.right
    ensures r.Some? ==> forall k | from - 1 <= k < r.value - 1 :: !(route[k] == gap.left && route[k + 1] == gap.right)
    ensures r.None? ==> forall k | from - 1 <= k < |route| - 1 :: !(route[k] == gap.left && route[k + 1] == gap.right)
    decreases |route| - from
  {
    if from >= |route| then None
    else if route[from - 1] == gap.left && route[from] == gap.right then Some(from)
    else RoutePositionFrom(route, gap, from + 1)
  }

  /** How one candidate looks at one position of the current route. */
  function Evaluate(setting: Setting, route: seq<nat>, position: nat, candidate: nat): Evaluation
    requires position <= |route|
  {
    var legs := setting.legs(route, position, candidate);
    var left, right := setting.percentile(legs.left), setting.percentile(legs.right);
    var worst, detour := MaxReal(left, right), left + right;
    var repeatSafe := candidate !in route && KeyWindowsSafeAt(setting.policy, Insert(route, position, candidate),
                                                              position);
    Evaluation(candidate, legs.left, legs.right, worst, detour, repeatSafe,
               repeatSafe && worst <= setting.maxLegPercentile && detour <= setting.maxDetourPercentile)
  }

  /** What makes a candidate acceptable at a place of the route: new to it, clear
      of every artist and album it would join, both legs inside the reference
      percentile and together inside the detour. */
  ghost predicate Acceptable(setting: Setting, route: seq<nat>, position: nat, x: nat)
    requires position <= |route|
  {
    var legs := setting.legs(route, position, x);
    && x !in route
    && (forall i | 0 <= i < position :: !KeysTooClose(setting.policy, x, route[i], position - i))
    && (forall i | position <= i < |route| :: !KeysTooClose(setting.policy, x, route[i], i + 1 - position))
    && setting.percentile(legs.left) <= setting.maxLegPercentile
    && setting.percentile(legs.right) <= setting.maxLegPercentile
    && setting.percentile(legs.left) + setting.percentile(legs.right) <= setting.maxDetourPercentile
  }

  lemma AcceptanceMeaning(setting: Setting, route: seq<nat>, position: nat, x: nat)
    requires position <= |route|
    ensures Evaluate(setting, route, position, x).accepted <==> Acceptable(setting, route, position, x)
  {
    hide KeysTooClose;
    var p, grown := setting.policy, Insert(route, position, x);
    if KeyWindowsSafeAt(p, grown, position) {
      forall i | 0 <= i < position ensures !KeysTooClose(p, x, route[i], position - i) {
        assert !KeysTooClose(p, grown[position], grown[i], AbsDiff(i, position));
      }
      forall i | position <= i < |route| ensures !KeysTooClose(p, x, route[i], i + 1 - position) {
        assert !KeysTooClose(p, grown[position], grown[i + 1], AbsDiff(i + 1, position));
      }
    }
    if Acceptable(setting, route, position, x) {
      forall other | 0 <= other < |grown| && other != position
        ensures !KeysTooClose(p, grown[position], grown[other], AbsDiff(other, position))
      {
        assert grown[other] == route[if other < position then other else other - 1];
      }
    }
  }

  function EvaluateAll(setting: Setting, route: seq<nat>, position: nat, candidates: seq<nat>): (v: seq<Evaluation>)
    requires position <= |route|
    ensures |v| == |candidates|
    ensures forall i | 0 <= i < |candidates| :: v[i] == Evaluate(setting, route, position, candidates[i])
  {
    seq(|candidates|, i requires 0 <= i < |candidates| => Evaluate(setting, route, position, candidates[i]))
  }

  /** Accepted first, then guidance, worst percentile, detour and index. */
  function RankingKey(gap: Gap, route: seq<nat>): Evaluation -> Key {
    (e: Evaluation) => Key(if e.accepted then 0 else 1, gap.guidanceRank(route, e.candidate) as real, e.maxPercentile,
             -e.detourPercentile, [e.candidate])
  }

  function ByVariation(setting: Setting, route: seq<nat>, position: nat): Evaluation -> Key {
    (e: Evaluation) => Key(setting.variationKey(route, position, e.candidate), 0.0, 0.0, 0.0, [])
  }

  function LeadingAccepted(evaluations: seq<Evaluation>): (n: nat)
    ensures n <= |evaluations|
    ensures forall i | 0 <= i < n :: evaluations[i].accepted
    ensures n < |evaluations| ==> !evaluations[n].accepted
  {
    if evaluations == [] || !evaluations[0].accepted then 0 else 1 + LeadingAccepted(evaluations[1..])
  }

  function VariedPoolLength(accepted: nat, percent: nat, minimumPool: nat): (n: nat)
    requires percent <= 100
    ensures n <= accepted
  {
    if accepted == 0 || percent == 0 then Min(accepted, 1)
    else
      var ceiling := Min(accepted, 32);
      var floor := Min(Max(minimumPool, 1), ceiling);
      floor + Share(ceiling - floor, percent)
  }

  /** The floor that was asked for, inside the pool, and of the rest of it the
      requested percentage. */
  lemma VariedPoolMeaning(accepted: nat, percent: nat, minimumPool: nat)
    requires accepted > 0 && 0 < percent <= 100
    ensures var n, most := VariedPoolLength(accepted, percent, minimumPool), if accepted < 32 then accepted else 32;
            var floor := if minimumPool < 1 then 1 else if minimumPool > most then most else minimumPool;
            && floor <= n && 100 * (n - floor) <= (most - floor) * percent < 100 * (n - floor) + 100
            && (percent == 100 ==> n == most)
  {
    hide Share;
    var most := Min(accepted, 32);
    var floor := Min(Max(minimumPool, 1), most);
    ShareIsFloor(most - floor, percent);
    ShareGrows(most - floor, percent, percent);
  }

  /** All candidates of a gap, evaluated at the current route and ranked. */
  function Rank(setting: Setting, gap: Gap, route: seq<nat>, position: nat): seq<Evaluation>
    requires position <= |route| && setting.variationPercent <= 100
  {
    var ranked := SortBy(EvaluateAll(setting, route, position, gap.candidates), RankingKey(gap, route));
    var pool := VariedPoolLength(LeadingAccepted(ranked), setting.variationPercent, setting.minimumPool);
    if pool > 1 then SortBy(ranked[..pool], ByVariation(setting, route, position)) + ranked[pool..] else ranked
  }

  lemma EvaluateAllMembers(setting: Setting, route: seq<nat>, position: nat, candidates: seq<nat>, e: Evaluation)
    requires position <= |route|
    ensures e in EvaluateAll(setting, route, position, candidates) <==>
            exists i :: 0 <= i < |candidates| && e == Evaluate(setting, route, position, candidates[i])
  {
    hide Evaluate;
    var all := EvaluateAll(setting, route, position, candidates);
    if e in all {
      var i :| 0 <= i < |all| && all[i] == e;
    }
    if i :| 0 <= i < |candidates| && e == Evaluate(setting, route, position, candidates[i]) {
      assert all[i] == e;
    }
  }

  /** Ranking only reorders the gap's own candidates. */
  lemma RankMembers(setting: Setting, gap: Gap, route: seq<nat>, position: nat)
    requires position <= |route| && setting.variationPercent <= 100
    ensures forall e :: e in Rank(setting, gap, route, position) <==>
              exists i :: 0 <= i < |gap.candidates| && e == Evaluate(setting, route, position, gap.candidates[i])
    ensures |Rank(setting, gap, route, position)| == |gap.candidates|
  {
    hide SortBy, Evaluate, LeadingAccepted, VariedPoolLength;
    var all := EvaluateAll(setting, route, position, gap.candidates);
    var ranked := SortBy(all, RankingKey(gap, route));
    SortByMembers(all, RankingKey(gap, route));
    var pool := VariedPoolLength(LeadingAccepted(ranked), setting.variationPercent, setting.minimumPool);
    SortByMembers(ranked[..pool], ByVariation(setting, route, position));
    assert ranked == ranked[..pool] + ranked[pool..];
    forall e
      ensures e in Rank(setting, gap, route, position) <==>
              exists i :: 0 <= i < |gap.candidates| && e == Evaluate(setting, route, position, gap.candidates[i])
    {
      EvaluateAllMembers(setting, route, position, gap.candidates, e);
    }
  }

  /** Seeded variation reorders the pool of leading accepted candidates by the
      seeded key and leaves the rest of the ranking as it is. */
  lemma RankVaries(setting: Setting, gap: Gap, route: seq<nat>, position: nat) returns (pool: nat)
    requires position <= |route| && setting.variationPercent <= 100
    ensures var base := SortBy(EvaluateAll(setting, route, position, gap.candidates), RankingKey(gap, route));
            var ranked := Rank(setting, gap, route, position);
            && pool == VariedPoolLength(LeadingAccepted(base), setting.variationPercent, setting.minimumPool)
            && pool <= |base| == |ranked|
            && multiset(ranked[..pool]) == multiset(base[..pool]) && ranked[pool..] == base[pool..]
            && (forall i | 0 <= i < pool :: base[i].accepted)
            && forall i, j | 0 <= i <= j < pool ::
                 setting.variationKey(route, position, ranked[i].candidate) <=
                 setting.variationKey(route, position, ranked[j].candidate)
  {
    hide SortBy, Evaluate, VariedPoolLength;
    var base := SortBy(EvaluateAll(setting, route, position, gap.candidates), RankingKey(gap, route));
    pool := VariedPoolLength(LeadingAccepted(base), setting.variationPercent, setting.minimumPool);
    var ranked := Rank(setting, gap, route, position);
    if pool > 1 {
      var varied := SortBy(base[..pool], ByVariation(setting, route, position));
      SortByMembers(base[..pool], ByVariation(setting, route, position));
      SortBySorts(base[..pool], ByVariation(setting, route, position));
      assert ranked[..pool] == varied;
      forall i, j | 0 <= i <= j < pool
        ensures setting.variationKey(route, position, ranked[i].candidate) <=
                setting.variationKey(route, position, ranked[j].candidate)
      {
        assert ranked[i] == varied[i] && ranked[j] == varied[j];
      }
    }
  }

  // ----- runs -----

  /** The route after one decision per gap, each nothing or one track; None
      when a gap cannot be found any more. */
  function Evolve(original: seq<nat>, gaps: seq<Gap>, picks: seq<seq<nat>>): Option<seq<nat>>
    requires |picks| <= |gaps|
  {
    if picks == [] then Some(original)
    else
      var n := |picks| - 1;
      match Evolve(original, gaps, picks[..n])
      case None => None
      case Some(route) =>
        match RoutePosition(route, gaps[n])
        case None => None
        case Some(position) => Some(if picks[n] == [] then route else Insert(route, position, picks[n][0]))
  }

  /** A track that the gap may take at this moment. */
  ghost predicate Takes(setting: Setting, route: seq<nat>, gap: Gap, x: nat) {
    && x in gap.candidates && RoutePosition(route, gap).Some?
    && Evaluate(setting, route, RoutePosition(route, gap).value, x).accepted
  }

  /** Decisions that a planner may make: every insertion accepted by the route
      as it stood at that moment. */
  ghost predicate Run(setting: Setting, original: seq<nat>, gaps: seq<Gap>, picks: seq<seq<nat>>)
    requires |picks| <= |gaps|
  {
    picks == [] ||
    var n := |picks| - 1;
    && Run(setting, original, gaps, picks[..n])
    && Evolve(original, gaps, picks).Some?
    && |picks[n]| <= 1
    && (picks[n] != [] ==> Takes(setting, Evolve(original, gaps, picks[..n]).value, gaps[n], picks[n][0]))
  }

  function Added(picks: seq<seq<nat>>): nat {
    if picks == [] then 0 else Added(picks[..|picks| - 1]) + |picks[|picks| - 1]|
  }

  /** `at` places each member of `inner` in `outer`, in order. */
  ghost predicate Embeds(inner: seq<nat>, outer: seq<nat>, at: seq<nat>) {
    && |at| == |inner|
    && (forall i | 0 <= i < |at| :: at[i] < |outer| && outer[at[i]] == inner[i])
    && forall i, j | 0 <= i < j < |at| :: at[i] < at[j]
  }

  ghost predicate Subsequence(inner: seq<nat>, outer: seq<nat>) {
    exists at :: Embeds(inner, outer, at)
  }

  lemma KeysTooCloseMonotone(p: Policy, a: nat, b: nat, near: nat, far: nat)
    requires near <= far && KeysTooClose(p, a, b, far)
    ensures KeysTooClose(p, a, b, near)
  {
  }

  /** Insertion never shortens a distance, so a clean route stays clean. */
  lemma InsertKeepsClean(p: Policy, route: seq<nat>, position: nat, x: nat)
    requires position <= |route| && CleanRoute(p, route)
    requires KeyWindowsSafeAt(p, Insert(route, position, x), position)
    ensures CleanRoute(p, Insert(route, position, x))
  {
    hide KeysTooClose;
    var grown := Insert(route, position, x);
    forall i, j | 0 <= i < j < |grown| ensures !KeysTooClose(p, grown[i], grown[j], j - i) {
      if i == position {
        assert !KeysTooClose(p, grown[position], grown[j], AbsDiff(j, position));
      } else if j == position {
        assert !KeysTooClose(p, grown[position], grown[i], AbsDiff(i, position));
        KeysTooCloseSymmetric(p, grown[position], grown[i], j - i);
      } else {
        var k, l := if i < position then i else i - 1, if j < position then j else j - 1;
        assert grown[i] == route[k] && grown[j] == route[l];
        if KeysTooClose(p, route[k], route[l], j - i) {
          KeysTooCloseMonotone(p, route[k], route[l], l - k, j - i);
        }
      }
    }
  }

  lemma InsertKeepsDistinct(route: seq<nat>, position: nat, x: nat)
    requires position <= |route| && Distinct(route) && x !in route
    ensures Distinct(Insert(route, position, x))
  {
    var grown := Insert(route, position, x);
    forall i, j | 0 <= i < j < |grown| ensures grown[i] != grown[j] {
      assert i != position ==> grown[i] == route[if i < position then i else i - 1];
      assert j != position ==> grown[j] == route[if j < position then j else j - 1];
    }
  }

  lemma InsertKeepsOrder(inner: seq<nat>, route: seq<nat>, at: seq<nat>, position: nat, x: nat)
    requires position <= |route| && Embeds(inner, route, at)
    ensures Subsequence(inner, Insert(route, position, x))
  {
    var grown := Insert(route, position, x);
    var moved := seq(|at|, i requires 0 <= i < |at| => if at[i] < position then at[i] else at[i] + 1);
    assert Embeds(inner, grown, moved);
  }

  lemma SubsequenceReflexive(route: seq<nat>)
    ensures Subsequence(route, route)
  {
    assert Embeds(route, route, seq(|route|, i => i));
  }

  /** What every run keeps: the original in order, distinct members, every
      artist and album window, and one track for each insertion. */
  lemma {:induction false} RunKeeps(setting: Setting, original: seq<nat>, gaps: seq<Gap>, picks: seq<seq<nat>>)
    requires |picks| <= |gaps| && Run(setting, original, gaps, picks)
    ensures Evolve(original, gaps, picks).Some?
    ensures var route := Evolve(original, gaps, picks).value;
            && Subsequence(original, route)
            && |route| == |original| + Added(picks)
            && (Distinct(original) ==> Distinct(route))
            && (CleanRoute(setting.policy, original) ==> CleanRoute(setting.policy, route))
    ensures Added(picks) <= |picks|
  {
    hide KeyWindowsSafeAt, CleanRoute, Distinct, Embeds, RoutePosition;
    if picks == [] {
      SubsequenceReflexive(original);
    } else {
      var n := |picks| - 1;
      RunKeeps(setting, original, gaps, picks[..n]);
      if picks[n] != [] {
        var before, x := Evolve(original, gaps, picks[..n]).value, picks[n][0];
        var position := RoutePosition(before, gaps[n]).value;
        InsertionKeeps(setting, original, before, position, x);
      }
    }
  }

  lemma InsertionKeeps(setting: Setting, original: seq<nat>, before: seq<nat>, position: nat, x: nat)
    requires position <= |before| && Evaluate(setting, before, position, x).accepted && Subsequence(original, before)
    ensures Subsequence(original, Insert(before, position, x)) && |Insert(before, position, x)| == |before| + 1
    ensures Distinct(before) ==> Distinct(Insert(before, position, x))
    ensures CleanRoute(setting.policy, before) ==> CleanRoute(setting.policy, Insert(before, position, x))
  {
    hide KeyWindowsSafeAt, CleanRoute, Distinct;
    var at :| Embeds(original, before, at);
    InsertKeepsOrder(original, before, at, position, x);
    if Distinct(before) {
      InsertKeepsDistinct(before, position, x);
    }
    if CleanRoute(setting.policy, before) {
      InsertKeepsClean(setting.policy, before, position, x);
    }
  }

  /** Gap `g` of a run received an acceptable candidate of its own, between its
      two anchors as they stood on the route at that moment. */
  ghost predicate InsertedRightly(setting: Setting, original: seq<nat>, gaps: seq<Gap>, picks: seq<seq<nat>>, g: nat)
    requires g < |picks| <= |gaps| && picks[g] != []
  {
    var before, x := Evolve(original, gaps, picks[..g]), picks[g][0];
    && before.Some?
    && var route := before.value;
       exists position :: 0 < position < |route| &&
         route[position - 1] == gaps[g].left && route[position] == gaps[g].right &&
         x in gaps[g].candidates && Acceptable(setting, route, position, x) &&
         Evolve(original, gaps, picks[..g + 1]) == Some(route[..position] + [x] + route[position..])
  }

  lemma {:induction false} RunInserts(setting: Setting, original: seq<nat>, gaps: seq<Gap>, picks: seq<seq<nat>>,
                                      g: nat)
    requires g < |picks| <= |gaps| && Run(setting, original, gaps, picks) && picks[g] != []
    ensures InsertedRightly(setting, original, gaps, picks, g)
  {
    hide Evaluate, Acceptable, RoutePosition;
    var n := |picks| - 1;
    if g < n {
      hide Evolve, Takes, InsertedRightly;
      RunInserts(setting, original, gaps, picks[..n], g);
      InsertedStays(setting, original, gaps, picks, g);
    } else {
      hide Run, InsertedRightly;
      LastInserts(setting, original, gaps, picks);
    }
  }

  lemma InsertedStays(setting: Setting, original: seq<nat>, gaps: seq<Gap>, picks: seq<seq<nat>>, g: nat)
    requires g + 1 < |picks| <= |gaps| && picks[g] != []
    requires InsertedRightly(setting, original, gaps, picks[..|picks| - 1], g)
    ensures InsertedRightly(setting, original, gaps, picks, g)
  {
    hide Evolve, Acceptable;
    var n := |picks| - 1;
    assert picks[..n][..g] == picks[..g] && picks[..n][..g + 1] == picks[..g + 1];
  }

  lemma LastInserts(setting: Setting, original: seq<nat>, gaps: seq<Gap>, picks: seq<seq<nat>>)
    requires 0 < |picks| <= |gaps| && Run(setting, original, gaps, picks) && picks[|picks| - 1] != []
    ensures InsertedRightly(setting, original, gaps, picks, |picks| - 1)
  {
    hide Evaluate, Acceptable, RoutePosition;
    var g := |picks| - 1;
    assert picks[..g + 1] == picks;
    var route := Evolve(original, gaps, picks[..g]).value;
    var position := RoutePosition(route, gaps[g]).value;
    AcceptanceMeaning(setting, route, position, picks[g][0]);
  }

  // ----- no gap is ever lost -----

  ghost predicate Neighbours(route: seq<nat>, gap: Gap) {
    exists k :: 0 <= k < |route| - 1 && route[k] == gap.left && route[k + 1] == gap.right
  }

  /** Gaps that are neighbours in the original, no two with the same left anchor. */
  ghost predicate GapsFit(original: seq<nat>, gaps: seq<Gap>) {
    && (forall g | 0 <= g < |gaps| :: Neighbours(original, gaps[g]))
    && forall g, h | 0 <= g < h < |gaps| :: gaps[g].left != gaps[h].left
  }

  lemma InsertKeepsNeighbours(route: seq<nat>, gap: Gap, x: nat, other: Gap)
    requires RoutePosition(route, gap).Some? && Neighbours(route, other) && other.left != gap.left
    ensures Neighbours(Insert(route, RoutePosition(route, gap).value, x), other)
  {
    hide RoutePositionFrom;
    var position := RoutePosition(route, gap).value;
    var grown := Insert(route, position, x);
    var k :| 0 <= k < |route| - 1 && route[k] == other.left && route[k + 1] == other.right;
    var l := if k < position then k else k + 1;
    assert grown[l] == route[k] && grown[l + 1] == route[k + 1];
  }

  /** Over fitting gaps every run finds every later gap. */
  lemma {:induction false} GapsStay(setting: Setting, original: seq<nat>, gaps: seq<Gap>, picks: seq<seq<nat>>)
    requires |picks| <= |gaps| && Run(setting, original, gaps, picks) && GapsFit(original, gaps)
    ensures Evolve(original, gaps, picks).Some?
    ensures forall h | |picks| <= h < |gaps| :: Neighbours(Evolve(original, gaps, picks).value, gaps[h])
  {
    hide RoutePosition, Evaluate, Neighbours;
    if picks != [] {
      var n := |picks| - 1;
      GapsStay(setting, original, gaps, picks[..n]);
      if picks[n] != [] {
        var before := Evolve(original, gaps, picks[..n]).value;
        forall h | |picks| <= h < |gaps| ensures Neighbours(Evolve(original, gaps, picks).value, gaps[h]) {
          InsertKeepsNeighbours(before, gaps[n], picks[n][0], gaps[h]);
        }
      }
    }
  }

  // ----- gaps in original order -----

  function ByPosition(): Gap -> Key {
    (g: Gap) => Key(g.originalPosition, 0.0, 0.0, 0.0, [])
  }

  function OrderedGaps(gaps: seq<Gap>): seq<Gap> {
    SortBy(gaps, ByPosition())
  }

  function LeftOf(): Gap -> seq<nat> {
    (g: Gap) => [g.left]
  }

  /** Sorting the gaps keeps them fitting. */
  lemma OrderedGapsFit(original: seq<nat>, gaps: seq<Gap>)
    requires GapsFit(original, gaps)
    ensures GapsFit(original, OrderedGaps(gaps)) && |OrderedGaps(gaps)| == |gaps|
  {
    hide Neighbours, SortBy;
    var ordered := OrderedGaps(gaps);
    SortByMembers(gaps, ByPosition());
    forall g | 0 <= g < |ordered| ensures Neighbours(original, ordered[g]) {
      assert ordered[g] in gaps;
    }
    assert DistinctBy(gaps, LeftOf());
    DistinctByPermutes(gaps, ordered, LeftOf());
    forall g, h | 0 <= g < h < |ordered| ensures ordered[g].left != ordered[h].left {
      assert LeftOf()(ordered[g]) != LeftOf()(ordered[h]);
    }
  }

  /** The gaps are taken in the order of their positions in the original. */
  lemma OrderedGapsAscend(gaps: seq<Gap>)
    ensures multiset(OrderedGaps(gaps)) == multiset(gaps)
    ensures forall g, h | 0 <= g < h < |gaps| ::
              OrderedGaps(gaps)[g].originalPosition <= OrderedGaps(gaps)[h].originalPosition
  {
    hide SortBy;
    SortByMembers(gaps, ByPosition());
    SortBySorts(gaps, ByPosition());
    var ordered, key := SortBy(gaps, ByPosition()), ByPosition();
    forall g, h | 0 <= g < h < |gaps| ensures ordered[g].originalPosition <= ordered[h].originalPosition {
      assert KeyLe(key(ordered[g]), key(ordered[h]));
    }
  }

  // ----- automatic insertion -----

  datatype AutomaticConfig = AutomaticConfig(maxAddedTracks: nat, triggerPercentile: real)

  datatype Outcome = InvalidOriginalGap(position: nat) | Routed(route: seq<nat>)

  function LocalObjective(sum: real, worst: real): real {
    sum + 2.0 * worst
  }

  predicate Improves(gap: Gap, e: Evaluation) {
    LocalObjective(e.leftDistance + e.rightDistance, MaxReal(e.leftDistance, e.rightDistance)) <
    LocalObjective(gap.directDistance, gap.directDistance)
  }

  /** The first ranked candidate that is accepted and beats the direct transition. */
  function FirstImproving(ranked: seq<Evaluation>, gap: Gap): (pick: seq<nat>)
    ensures |pick| <= 1
    ensures pick != [] ==> exists e :: e in ranked && e.accepted && Improves(gap, e) && e.candidate == pick[0]
    ensures pick == [] ==> forall e | e in ranked :: !(e.accepted && Improves(gap, e))
  {
    if ranked == [] then []
    else if ranked[0].accepted && Improves(gap, ranked[0]) then
      assert ranked[0] in ranked;
      [ranked[0].candidate]
    else
      assert forall e :: e in ranked <==> e == ranked[0] || e in ranked[1..];
      FirstImproving(ranked[1..], gap)
  }

  /** The decision for one gap of the current route. */
  function AutomaticPick(setting: Setting, cfg: AutomaticConfig, gap: Gap, route: seq<nat>, position: nat,
                         added: nat): seq<nat>
    requires position <= |route| && setting.variationPercent <= 100
  {
    if gap.directPercentile > cfg.triggerPercentile && added < cfg.maxAddedTracks && gap.candidates != [] then
      FirstImproving(Rank(setting, gap, route, position), gap)
    else []
  }

  /** The two legs around the candidate, the longer one counted three times,
      stay below three times the direct distance. */
  ghost predicate Gains(setting: Setting, gap: Gap, route: seq<nat>, position: nat, x: nat) {
    var legs := setting.legs(route, position, x);
    && 3.0 * legs.left + legs.right < 3.0 * gap.directDistance
    && legs.left + 3.0 * legs.right < 3.0 * gap.directDistance
  }

  lemma GainMeaning(setting: Setting, gap: Gap, route: seq<nat>, position: nat, x: nat)
    requires position <= |route|
    ensures Improves(gap, Evaluate(setting, route, position, x)) <==> Gains(setting, gap, route, position, x)
  {
  }

  /** A gap is left alone only below the trigger, over budget, or when no
      candidate is both acceptable and an improvement. */
  lemma AutomaticPickMeaning(setting: Setting, cfg: AutomaticConfig, gap: Gap, route: seq<nat>, position: nat,
                             added: nat)
    requires setting.variationPercent <= 100 && RoutePosition(route, gap) == Some(position)
    ensures var pick := AutomaticPick(setting, cfg, gap, route, position, added);
            && |pick| <= 1
            && (pick != [] ==>
                  && gap.directPercentile > cfg.triggerPercentile && added < cfg.maxAddedTracks
                  && Takes(setting, route, gap, pick[0])
                  && Acceptable(setting, route, position, pick[0]) && Gains(setting, gap, route, position, pick[0]))
            && (pick == [] && gap.directPercentile > cfg.triggerPercentile && added < cfg.maxAddedTracks ==>
                  forall x | x in gap.candidates ::
                    !(Acceptable(setting, route, position, x) && Gains(setting, gap, route, position, x)))
  {
    hide Rank, RoutePosition, Evaluate, Improves, Acceptable, Gains;
    RankMembers(setting, gap, route, position);
    var ranked := Rank(setting, gap, route, position);
    var pick := AutomaticPick(setting, cfg, gap, route, position, added);
    if pick != [] {
      var e :| e in ranked && e.accepted && Improves(gap, e) && e.candidate == pick[0];
      var i :| 0 <= i < |gap.candidates| && e == Evaluate(setting, route, position, gap.candidates[i]);
      EvaluatesCandidate(setting, route, position, gap.candidates[i]);
      AcceptanceMeaning(setting, route, position, pick[0]);
      GainMeaning(setting, gap, route, position, pick[0]);
    }
    forall x | x in gap.candidates
      ensures Evaluate(setting, route, position, x) in ranked
      ensures Evaluate(setting, route, position, x).accepted <==> Acceptable(setting, route, position, x)
      ensures Improves(gap, Evaluate(setting, route, position, x)) <==> Gains(setting, gap, route, position, x)
    {
      AcceptanceMeaning(setting, route, position, x);
      GainMeaning(setting, gap, route, position, x);
      var i :| 0 <= i < |gap.candidates| && gap.candidates[i] == x;
      assert Evaluate(setting, route, position, gap.candidates[i]) in ranked;
    }
  }

  /** In a sorted ranking the pick comes before every other candidate that
      would do. */
  lemma {:induction false} FirstImprovingIsLeast(ranked: seq<Evaluation>, gap: Gap, key: Evaluation -> Key)
    returns (e: Evaluation)
    requires SortedBy(ranked, key) && FirstImproving(ranked, gap) != []
    ensures e in ranked && e.accepted && Improves(gap, e) && FirstImproving(ranked, gap) == [e.candidate]
    ensures forall other | other in ranked && other.accepted && Improves(gap, other) :: KeyLe(key(e), key(other))
  {
    hide KeyLe, Improves;
    if ranked[0].accepted && Improves(gap, ranked[0]) {
      e := ranked[0];
      forall other | other in ranked ensures KeyLe(key(e), key(other)) {
        var i :| 0 <= i < |ranked| && ranked[i] == other;
        assert KeyLe(key(ranked[0]), key(ranked[i]));
      }
    } else {
      e := FirstImprovingIsLeast(ranked[1..], gap, key);
      assert forall other :: other in ranked <==> other == ranked[0] || other in ranked[1..];
    }
  }

  /** The earlier of two acceptable candidates: by guidance, then the worse
      percentile of the two legs, then their sum, then the index. */
  ghost predicate RankedFirst(setting: Setting, gap: Gap, route: seq<nat>, position: nat, x: nat, y: nat) {
    var mine, theirs := setting.legs(route, position, x), setting.legs(route, position, y);
    var ml, mr := setting.percentile(mine.left), setting.percentile(mine.right);
    var tl, tr := setting.percentile(theirs.left), setting.percentile(theirs.right);
    var mw, tw := (if ml < mr then mr else ml), if tl < tr then tr else tl;
    if gap.guidanceRank(route, x) != gap.guidanceRank(route, y) then
      gap.guidanceRank(route, x) < gap.guidanceRank(route, y)
    else if mw != tw then mw < tw
    else if ml + mr != tl + tr then ml + mr < tl + tr
    else x <= y
  }

  lemma RankingMeaning(setting: Setting, gap: Gap, route: seq<nat>, position: nat, x: nat, y: nat)
    requires position <= |route|
    requires Evaluate(setting, route, position, x).accepted && Evaluate(setting, route, position, y).accepted
    requires KeyLe(RankingKey(gap, route)(Evaluate(setting, route, position, x)),
                   RankingKey(gap, route)(Evaluate(setting, route, position, y)))
    ensures RankedFirst(setting, gap, route, position, x, y)
  {
    hide KeyLe, KeyWindowsSafeAt;
    var a, b := Evaluate(setting, route, position, x), Evaluate(setting, route, position, y);
    KeyLeMeaning(RankingKey(gap, route)(a), RankingKey(gap, route)(b));
    SingleFirst(x, y);
    assert RankingKey(gap, route)(a).path == [x] && RankingKey(gap, route)(b).path == [y];
  }

  lemma SingleFirst(x: nat, y: nat)
    ensures ComesFirst([x], [y]) ==> x <= y
  {
    var a, b := [x], [y];
    if a <= b {
      assert a[0] == b[0];
    }
  }

  /** Without variation a gap takes the first candidate of those that are
      acceptable and improve on the direct leg. */
  lemma AutomaticPickIsLeast(setting: Setting, cfg: AutomaticConfig, gap: Gap, route: seq<nat>, position: nat,
                             added: nat, x: nat)
    requires setting.variationPercent == 0 && position <= |route|
    requires AutomaticPick(setting, cfg, gap, route, position, added) != [] && x in gap.candidates
    requires Acceptable(setting, route, position, x) && Gains(setting, gap, route, position, x)
    ensures var pick := AutomaticPick(setting, cfg, gap, route, position, added)[0];
            RankedFirst(setting, gap, route, position, pick, x)
  {
    hide KeyLe, Improves, Evaluate, SortBy, RankingKey, FirstImproving, Acceptable, Gains, RankedFirst;
    AcceptanceMeaning(setting, route, position, x);
    GainMeaning(setting, gap, route, position, x);
    var all, key := EvaluateAll(setting, route, position, gap.candidates), RankingKey(gap, route);
    var ranked := SortBy(all, key);
    assert Rank(setting, gap, route, position) == ranked;
    SortBySorts(all, key);
    SortByMembers(all, key);
    RankMembers(setting, gap, route, position);
    var e := FirstImprovingIsLeast(ranked, gap, key);
    var i :| 0 <= i < |gap.candidates| && e == Evaluate(setting, route, position, gap.candidates[i]);
    EvaluatesCandidate(setting, route, position, gap.candidates[i]);
    var k :| 0 <= k < |gap.candidates| && gap.candidates[k] == x;
    assert Evaluate(setting, route, position, gap.candidates[k]) in ranked;
    RankingMeaning(setting, gap, route, position, e.candidate, x);
  }

  lemma EvaluatesCandidate(setting: Setting, route: seq<nat>, position: nat, x: nat)
    requires position <= |route|
    ensures Evaluate(setting, route, position, x).candidate == x
  {
  }

  lemma RunStep(setting: Setting, original: seq<nat>, gaps: seq<Gap>, picks: seq<seq<nat>>, pick: seq<nat>)
    requires |picks| < |gaps| && Run(setting, original, gaps, picks)
    requires Evolve(original, gaps, picks).Some?
    requires RoutePosition(Evolve(original, gaps, picks).value, gaps[|picks|]).Some?
    requires |pick| <= 1 && (pick != [] ==> Takes(setting, Evolve(original, gaps, picks).value, gaps[|picks|], pick[0]))
    ensures Run(setting, original, gaps, picks + [pick])
    ensures var route := Evolve(original, gaps, picks).value;
            Evolve(original, gaps, picks + [pick]) ==
            Some(if pick == [] then route else Insert(route, RoutePosition(route, gaps[|picks|]).value, pick[0]))
    ensures Added(picks + [pick]) == Added(picks) + |pick|
  {
    hide RoutePosition, Evaluate;
    assert (picks + [pick])[..|picks|] == picks;
  }

  /** Decided gap by gap, each decision made on the route as it then stood. */
  ghost predicate AutomaticRun(setting: Setting, cfg: AutomaticConfig, original: seq<nat>, gaps: seq<Gap>,
                               picks: seq<seq<nat>>)
    requires |picks| <= |gaps| && setting.variationPercent <= 100
  {
    picks == [] ||
    var n := |picks| - 1;
    && AutomaticRun(setting, cfg, original, gaps, picks[..n])
    && Evolve(original, gaps, picks[..n]).Some?
    && var route := Evolve(original, gaps, picks[..n]).value;
       RoutePosition(route, gaps[n]).Some? &&
       picks[n] == AutomaticPick(setting, cfg, gaps[n], route, RoutePosition(route, gaps[n]).value, Added(picks[..n]))
  }

  /** Left-to-right insertion.  `picks` holds the decision of each gap. */
  method SelectAutomatic(setting: Setting, cfg: AutomaticConfig, original: seq<nat>, gaps: seq<Gap>)
    returns (result: Outcome, ghost picks: seq<seq<nat>>)
    requires setting.variationPercent <= 100
    ensures result.Routed? ==>
              && |picks| == |OrderedGaps(gaps)| == |gaps|
              && Run(setting, original, OrderedGaps(gaps), picks)
              && AutomaticRun(setting, cfg, original, OrderedGaps(gaps), picks)
              && Evolve(original, OrderedGaps(gaps), picks) == Some(result.route)
              && Added(picks) <= cfg.maxAddedTracks
    ensures result.Routed? ==>
              && Subsequence(original, result.route)
              && |result.route| <= |original| + cfg.maxAddedTracks && |result.route| <= |original| + |gaps|
              && (Distinct(original) ==> Distinct(result.route))
              && (CleanRoute(setting.policy, original) ==> CleanRoute(setting.policy, result.route))
    ensures result.Routed? ==>
              forall g | 0 <= g < |picks| && picks[g] != [] ::
                InsertedRightly(setting, original, OrderedGaps(gaps), picks, g)
    ensures !result.Routed? ==>
              var ordered := OrderedGaps(gaps);
              && |picks| < |ordered| && AutomaticRun(setting, cfg, original, ordered, picks)
              && Evolve(original, ordered, picks).Some?
              && RoutePosition(Evolve(original, ordered, picks).value, ordered[|picks|]).None?
              && result == InvalidOriginalGap(ordered[|picks|].originalPosition)
    ensures GapsFit(original, gaps) ==> result.Routed?
  {
    hide RoutePosition, Evaluate, Rank, SortBy, GapsFit, Neighbours, CleanRoute, Distinct, Subsequence, Takes,
      AutomaticPick, InsertedRightly;
    var ordered := OrderedGaps(gaps);
    if GapsFit(original, gaps) {
      OrderedGapsFit(original, gaps);
    }
    var route, added := original, 0;
    picks := [];
    var g := 0;
    while g < |ordered|
      invariant 0 <= g <= |ordered| && |picks| == g
      invariant Run(setting, original, ordered, picks) && AutomaticRun(setting, cfg, original, ordered, picks)
      invariant Evolve(original, ordered, picks) == Some(route)
      invariant added == Added(picks) <= cfg.maxAddedTracks
    {
      if GapsFit(original, gaps) {
        GapsStay(setting, original, ordered, picks);
        NeighboursAreFound(route, ordered[g]);
      }
      var position := RoutePosition(route, ordered[g]);
      if position.None? {
        return InvalidOriginalGap(ordered[g].originalPosition), picks;
      }
      var pick := AutomaticPick(setting, cfg, ordered[g], route, position.value, added);
      AutomaticPickMeaning(setting, cfg, ordered[g], route, position.value, added);
      RunStep(setting, original, ordered, picks, pick);
      assert (picks + [pick])[..g] == picks;
      if pick != [] {
        route := Insert(route, position.value, pick[0]);
        added := added + 1;
      }
      picks := picks + [pick];
      g := g + 1;
    }
    RunKeeps(setting, original, ordered, picks);
    forall g | 0 <= g < |picks| && picks[g] != [] ensures InsertedRightly(setting, original, ordered, picks, g) {
      RunInserts(setting, original, ordered, picks, g);
    }
    return Routed(route), picks;
  }

  lemma NeighboursAreFound(route: seq<nat>, gap: Gap)
    requires Neighbours(route, gap)
    ensures RoutePosition(route, gap).Some?
  {
  }

  // ----- exact count, one track per gap -----

  /** `objective` scores a whole route. */
  datatype ExactConfig = ExactConfig(requested: nat, candidateLimit: nat, beamWidth: nat, objective: seq<nat> -> real)

  datatype ExactState = ExactState(route: seq<nat>, objective: real)

  datatype ExactOutcome = InvalidExactConfig | GapLost(position: nat) | Found(route: seq<nat>) | NoneFound

  function ExactKey(s: ExactState): Key {
    Key(0, s.objective, 0.0, 0.0, s.route)
  }

  /** The smaller objective first; between equal objectives the earlier route. */
  ghost predicate NoWorse(mine: real, route: seq<nat>, theirs: real, other: seq<nat>) {
    mine <= theirs && (mine == theirs ==> ComesFirst(route, other))
  }

  lemma ExactKeyMeaning(a: ExactState, b: ExactState)
    ensures KeyLe(ExactKey(a), ExactKey(b)) <==> NoWorse(a.objective, a.route, b.objective, b.route)
  {
    KeyLeMeaning(ExactKey(a), ExactKey(b));
  }

  function RouteOf(s: ExactState): seq<nat> {
    s.route
  }

  function Members(xs: seq<nat>): set<nat> {
    set x | x in xs
  }

  function CandidateSet(gaps: seq<Gap>): set<nat> {
    if gaps == [] then {} else CandidateSet(gaps[..|gaps| - 1]) + Members(gaps[|gaps| - 1].candidates)
  }

  /** No route can take more than one track per gap, nor one track twice. */
  function StructuralUpperBound(gaps: seq<Gap>): nat {
    Min(|gaps|, |CandidateSet(gaps)|)
  }

  lemma {:induction false} CandidateInSet(gaps: seq<Gap>, g: nat, x: nat)
    requires g < |gaps| && x in gaps[g].candidates
    ensures x in CandidateSet(gaps)
  {
    if g < |gaps| - 1 {
      CandidateInSet(gaps[..|gaps| - 1], g, x);
    }
  }

  lemma {:induction false} CandidateSetMeaning(gaps: seq<Gap>, x: nat)
    ensures x in CandidateSet(gaps) <==> exists g :: 0 <= g < |gaps| && x in gaps[g].candidates
  {
    if gaps != [] {
      var n := |gaps| - 1;
      CandidateSetMeaning(gaps[..n], x);
      if g :| 0 <= g < |gaps| && x in gaps[g].candidates {
        CandidateInSet(gaps, g, x);
      }
      if x in CandidateSet(gaps[..n]) {
        var g :| 0 <= g < n && x in gaps[..n][g].candidates;
        assert x in gaps[g].candidates;
      }
    }
  }

  /** The bound is the smaller of the number of gaps and the number of
      different candidates over all gaps. */
  lemma StructuralBoundMeaning(gaps: seq<Gap>, pool: set<nat>)
    requires forall x :: x in pool <==> exists g :: 0 <= g < |gaps| && x in gaps[g].candidates
    ensures StructuralUpperBound(gaps) == if |gaps| < |pool| then |gaps| else |pool|
  {
    forall x ensures x in pool <==> x in CandidateSet(gaps) {
      CandidateSetMeaning(gaps, x);
    }
    assert pool == CandidateSet(gaps);
  }

  /** The tracks a run inserted: distinct, from the gaps' pools, all on the route. */
  lemma {:induction false} InsertedTracks(setting: Setting, original: seq<nat>, gaps: seq<Gap>, picks: seq<seq<nat>>)
    returns (xs: seq<nat>)
    requires |picks| <= |gaps| && Run(setting, original, gaps, picks)
    ensures Evolve(original, gaps, picks).Some?
    ensures |xs| == Added(picks) && Distinct(xs)
    ensures forall i | 0 <= i < |xs| :: xs[i] in Evolve(original, gaps, picks).value && xs[i] in CandidateSet(gaps)
  {
    hide RoutePosition, KeyWindowsSafeAt;
    xs := [];
    if picks != [] {
      var n := |picks| - 1;
      xs := InsertedTracks(setting, original, gaps, picks[..n]);
      if picks[n] != [] {
        var before, x := Evolve(original, gaps, picks[..n]).value, picks[n][0];
        var position := RoutePosition(before, gaps[n]).value;
        CandidateInSet(gaps, n, x);
        var grown := Insert(before, position, x);
        assert grown[position] == x;
        forall y | y in before ensures y in grown {
          var k :| 0 <= k < |before| && before[k] == y;
          assert grown[if k < position then k else k + 1] == y;
        }
        xs := xs + [x];
      }
    }
  }

  lemma {:induction false} DistinctWithinSet(xs: seq<nat>, pool: set<nat>)
    requires Distinct(xs) && forall i | 0 <= i < |xs| :: xs[i] in pool
    ensures |xs| <= |pool|
  {
    if xs != [] {
      var n := |xs| - 1;
      DistinctWithinSet(xs[..n], pool - {xs[n]});
    }
  }

  /** No run whatever exceeds the structural bound: a larger request is
      infeasible, not merely unlucky. */
  lemma StructuralBoundIsNecessary(setting: Setting, original: seq<nat>, gaps: seq<Gap>, picks: seq<seq<nat>>)
    requires |picks| <= |gaps| && Run(setting, original, gaps, picks)
    ensures Added(picks) <= StructuralUpperBound(gaps)
  {
    hide Evolve, Run, CandidateSet;
    var xs := InsertedTracks(setting, original, gaps, picks);
    DistinctWithinSet(xs, CandidateSet(gaps));
    RunKeeps(setting, original, gaps, picks);
  }

  /** The first `limit` accepted candidates of a ranking. */
  function AcceptedCandidates(ranked: seq<Evaluation>, limit: nat): (v: seq<nat>)
    ensures |v| <= |ranked|
  {
    if ranked == [] || limit == 0 then []
    else if ranked[0].accepted then [ranked[0].candidate] + AcceptedCandidates(ranked[1..], limit - 1)
    else AcceptedCandidates(ranked[1..], limit)
  }

  function AcceptedCount(ranked: seq<Evaluation>): (n: nat)
    ensures n <= |ranked|
  {
    if ranked == [] then 0 else (if ranked[0].accepted then 1 else 0) + AcceptedCount(ranked[1..])
  }

  lemma {:induction false} AcceptedCandidatesMeaning(ranked: seq<Evaluation>, limit: nat)
    ensures forall x :: x in AcceptedCandidates(ranked, limit) ==>
              exists e :: e in ranked && e.accepted && e.candidate == x
    ensures limit >= AcceptedCount(ranked) ==>
              forall e :: e in ranked && e.accepted ==> e.candidate in AcceptedCandidates(ranked, limit)
  {
    if ranked != [] {
      assert ranked == [ranked[0]] + ranked[1..];
      if limit > 0 {
        AcceptedCandidatesMeaning(ranked[1..], if ranked[0].accepted then limit - 1 else limit);
      } else {
        AcceptedCandidatesMeaning(ranked[1..], 0);
      }
    }
  }

  lemma {:induction false} AcceptedPrefix(ranked: seq<Evaluation>)
    requires forall i, j | 0 <= i < j < |ranked| :: ranked[j].accepted ==> ranked[i].accepted
    ensures LeadingAccepted(ranked) == AcceptedCount(ranked)
  {
    if ranked != [] {
      AcceptedPrefix(ranked[1..]);
      if !ranked[0].accepted && ranked[1..] != [] {
        assert !ranked[1].accepted && ranked[1..][0] == ranked[1];
      }
    }
  }

  /** Every accepted candidate is ranked before every other. */
  lemma AcceptedLead(setting: Setting, gap: Gap, route: seq<nat>, position: nat)
    requires position <= |route|
    ensures var base := SortBy(EvaluateAll(setting, route, position, gap.candidates), RankingKey(gap, route));
            && (forall i, j | 0 <= i < j < |base| :: base[j].accepted ==> base[i].accepted)
            && LeadingAccepted(base) == AcceptedCount(base)
  {
    hide SortBy, Evaluate, KeyLe;
    var all, key := EvaluateAll(setting, route, position, gap.candidates), RankingKey(gap, route);
    var base := SortBy(all, key);
    SortBySorts(all, key);
    forall i, j | 0 <= i < j < |base| ensures base[j].accepted ==> base[i].accepted {
      assert KeyLe(key(base[i]), key(base[j]));
      KeyLeRank(key(base[i]), key(base[j]));
    }
    AcceptedPrefix(base);
  }

  /** An accepted candidate is left out only when the limit is full of accepted
      candidates ranked before it. */
  lemma {:induction false} LimitKeepsFirst(ranked: seq<Evaluation>, limit: nat, j: nat)
    requires j < |ranked| && ranked[j].accepted && ranked[j].candidate !in AcceptedCandidates(ranked, limit)
    ensures |AcceptedCandidates(ranked, limit)| == limit
    ensures forall x | x in AcceptedCandidates(ranked, limit) ::
              exists i :: 0 <= i < j && ranked[i].accepted && ranked[i].candidate == x
  {
    if limit > 0 {
      var kept := AcceptedCandidates(ranked, limit);
      var rest := AcceptedCandidates(ranked[1..], if ranked[0].accepted then limit - 1 else limit);
      assert j > 0 && ranked[1..][j - 1] == ranked[j];
      LimitKeepsFirst(ranked[1..], if ranked[0].accepted then limit - 1 else limit, j - 1);
      forall x | x in kept ensures exists i :: 0 <= i < j && ranked[i].accepted && ranked[i].candidate == x {
        if x in rest {
          var i :| 0 <= i < j - 1 && ranked[1..][i].accepted && ranked[1..][i].candidate == x;
          assert ranked[i + 1].candidate == x;
        }
      }
    }
  }

  function WithInsertion(cfg: ExactConfig, route: seq<nat>, position: nat, x: nat): ExactState
    requires position <= |route|
  {
    var grown := Insert(route, position, x);
    ExactState(grown, cfg.objective(grown))
  }

  function Insertions(cfg: ExactConfig, route: seq<nat>, position: nat, xs: seq<nat>): (v: seq<ExactState>)
    requires position <= |route|
    ensures |v| == |xs|
    ensures forall i | 0 <= i < |xs| :: v[i] == WithInsertion(cfg, route, position, xs[i])
  {
    seq(|xs|, i requires 0 <= i < |xs| => WithInsertion(cfg, route, position, xs[i]))
  }

  /** A state may skip a gap only while the later gaps can still make up the count. */
  predicate MaySkip(cfg: ExactConfig, prune: bool, added: nat, remaining: nat) {
    !prune || added + remaining >= cfg.requested
  }

  /** The successors of one state at one gap. */
  function Children(setting: Setting, cfg: ExactConfig, gap: Gap, prune: bool, base: nat, remaining: nat,
                    s: ExactState, position: nat): seq<ExactState>
    requires setting.variationPercent <= 100 && position <= |s.route| && base <= |s.route|
  {
    var added := |s.route| - base;
    (if MaySkip(cfg, prune, added, remaining) then [s] else []) +
    (if added < cfg.requested && gap.candidates != [] then
       Insertions(cfg, s.route, position, AcceptedCandidates(Rank(setting, gap, s.route, position), cfg.candidateLimit))
     else [])
  }

  lemma ChildrenSound(setting: Setting, cfg: ExactConfig, gap: Gap, prune: bool, base: nat, remaining: nat,
                      s: ExactState, position: nat, next: ExactState)
    requires setting.variationPercent <= 100 && base <= |s.route|
    requires RoutePosition(s.route, gap) == Some(position)
    requires next in Children(setting, cfg, gap, prune, base, remaining, s, position)
    ensures (next == s && MaySkip(cfg, prune, |s.route| - base, remaining)) ||
            (|s.route| - base < cfg.requested &&
             exists x :: Takes(setting, s.route, gap, x) && next == WithInsertion(cfg, s.route, position, x))
  {
    hide Rank, Evaluate, RoutePosition, WithInsertion;
    var ranked := Rank(setting, gap, s.route, position);
    var xs := AcceptedCandidates(ranked, cfg.candidateLimit);
    RankMembers(setting, gap, s.route, position);
    AcceptedCandidatesMeaning(ranked, cfg.candidateLimit);
    var added := |s.route| - base;
    if added < cfg.requested && gap.candidates != [] && next in Insertions(cfg, s.route, position, xs) {
      var i :| 0 <= i < |xs| && next == WithInsertion(cfg, s.route, position, xs[i]);
      assert xs[i] in xs;
      var e :| e in ranked && e.accepted && e.candidate == xs[i];
      var k :| 0 <= k < |gap.candidates| && e == Evaluate(setting, s.route, position, gap.candidates[k]);
      EvaluatesCandidate(setting, s.route, position, gap.candidates[k]);
      assert Takes(setting, s.route, gap, xs[i]);
    }
  }

  lemma ChildrenComplete(setting: Setting, cfg: ExactConfig, gap: Gap, prune: bool, base: nat, remaining: nat,
                         s: ExactState, position: nat, x: nat)
    requires setting.variationPercent <= 100 && base <= |s.route| && |s.route| - base < cfg.requested
    requires RoutePosition(s.route, gap) == Some(position) && Takes(setting, s.route, gap, x)
    requires AcceptedCount(Rank(setting, gap, s.route, position)) <= cfg.candidateLimit
    ensures WithInsertion(cfg, s.route, position, x) in Children(setting, cfg, gap, prune, base, remaining, s, position)
  {
    hide Rank, Evaluate, RoutePosition, WithInsertion;
    var ranked := Rank(setting, gap, s.route, position);
    var xs := AcceptedCandidates(ranked, cfg.candidateLimit);
    RankMembers(setting, gap, s.route, position);
    AcceptedCandidatesMeaning(ranked, cfg.candidateLimit);
    var k :| 0 <= k < |gap.candidates| && gap.candidates[k] == x;
    EvaluatesCandidate(setting, s.route, position, x);
    assert Evaluate(setting, s.route, position, gap.candidates[k]) in ranked;
    assert x in xs;
    var i :| 0 <= i < |xs| && xs[i] == x;
    assert Insertions(cfg, s.route, position, xs)[i] == WithInsertion(cfg, s.route, position, x);
  }

  /** The candidate limit leaves out no accepted candidate that could still be inserted. */
  ghost predicate ChoicesFit(setting: Setting, cfg: ExactConfig, gap: Gap, base: nat, s: ExactState, position: nat)
    requires setting.variationPercent <= 100 && position <= |s.route|
  {
    |s.route| < base + cfg.requested ==> AcceptedCount(Rank(setting, gap, s.route, position)) <= cfg.candidateLimit
  }

  lemma ChildrenSize(setting: Setting, cfg: ExactConfig, gap: Gap, prune: bool, base: nat, remaining: nat,
                     s: ExactState, position: nat)
    requires setting.variationPercent <= 100 && position <= |s.route| && base <= |s.route|
    ensures |Children(setting, cfg, gap, prune, base, remaining, s, position)| <= 1 + |gap.candidates|
  {
    hide Rank;
    RankMembers(setting, gap, s.route, position);
  }

  // ----- what a layer of states holds -----

  /** The state is the outcome of some run over the first gaps; while pruning
      is on, the remaining gaps can still complete the count. */
  ghost predicate ExactGood(setting: Setting, cfg: ExactConfig, original: seq<nat>, gaps: seq<Gap>, prune: bool,
                            g: nat, s: ExactState)
    requires g <= |gaps|
  {
    && s.objective == cfg.objective(s.route)
    && |original| <= |s.route| <= |original| + cfg.requested
    && (prune ==> |s.route| - |original| + (|gaps| - g) >= cfg.requested)
    && exists picks: seq<seq<nat>> :: |picks| == g && Run(setting, original, gaps, picks) &&
         Evolve(original, gaps, picks) == Some(s.route)
  }

  ghost predicate AllExact(setting: Setting, cfg: ExactConfig, original: seq<nat>, gaps: seq<Gap>, prune: bool,
                           g: nat, states: seq<ExactState>)
    requires g <= |gaps|
  {
    forall s | s in states :: ExactGood(setting, cfg, original, gaps, prune, g, s)
  }

  /** A full run that adds exactly what was asked for. */
  ghost predicate ExactTarget(setting: Setting, cfg: ExactConfig, original: seq<nat>, gaps: seq<Gap>,
                              picks: seq<seq<nat>>) {
    |picks| == |gaps| && Run(setting, original, gaps, picks) && Added(picks) == cfg.requested
  }

  ghost predicate PassesThrough(original: seq<nat>, gaps: seq<Gap>, picks: seq<seq<nat>>, g: nat,
                                states: seq<ExactState>)
    requires g <= |picks| <= |gaps|
  {
    Evolve(original, gaps, picks[..g]).Some? && HasBy(states, RouteOf, Evolve(original, gaps, picks[..g]).value)
  }

  ghost predicate ExactCovers(setting: Setting, cfg: ExactConfig, original: seq<nat>, gaps: seq<Gap>, g: nat,
                              states: seq<ExactState>)
    requires g <= |gaps|
  {
    forall picks: seq<seq<nat>> | ExactTarget(setting, cfg, original, gaps, picks) ::
      PassesThrough(original, gaps, picks, g, states)
  }

  lemma {:induction false} RunPrefix(setting: Setting, original: seq<nat>, gaps: seq<Gap>, picks: seq<seq<nat>>, k: nat)
    requires k <= |picks| <= |gaps| && Run(setting, original, gaps, picks)
    ensures Run(setting, original, gaps, picks[..k])
    ensures Added(picks[..k]) <= Added(picks) <= Added(picks[..k]) + (|picks| - k)
  {
    hide Evaluate, RoutePosition, Takes;
    if k < |picks| {
      RunPrefix(setting, original, gaps, picks[..|picks| - 1], k);
      assert picks[..|picks| - 1][..k] == picks[..k];
    } else {
      assert picks[..k] == picks;
    }
  }

  lemma ChildGood(setting: Setting, cfg: ExactConfig, original: seq<nat>, gaps: seq<Gap>, prune: bool, g: nat,
                  s: ExactState, position: nat, next: ExactState)
    requires setting.variationPercent <= 100 && g < |gaps| && ExactGood(setting, cfg, original, gaps, prune, g, s)
    requires RoutePosition(s.route, gaps[g]) == Some(position)
    requires next in Children(setting, cfg, gaps[g], prune, |original|, |gaps| - (g + 1), s, position)
    ensures ExactGood(setting, cfg, original, gaps, prune, g + 1, next)
  {
    hide RoutePosition, Evaluate, Children, Evolve, Run, Takes;
    var picks: seq<seq<nat>> :| |picks| == g && Run(setting, original, gaps, picks) &&
        Evolve(original, gaps, picks) == Some(s.route);
    ChildrenSound(setting, cfg, gaps[g], prune, |original|, |gaps| - (g + 1), s, position, next);
    if next == s && MaySkip(cfg, prune, |s.route| - |original|, |gaps| - (g + 1)) {
      RunStep(setting, original, gaps, picks, []);
      assert |picks + [[]]| == g + 1;
    } else {
      var x :| Takes(setting, s.route, gaps[g], x) && next == WithInsertion(cfg, s.route, position, x);
      RunStep(setting, original, gaps, picks, [x]);
      assert |picks + [[x]]| == g + 1;
    }
  }

  /** The next gap of a target is among the children of the state it passes:
      a skip that pruning would drop could never have reached the count. */
  lemma TargetContinues(setting: Setting, cfg: ExactConfig, original: seq<nat>, gaps: seq<Gap>, prune: bool, g: nat,
                        s: ExactState, position: nat, picks: seq<seq<nat>>)
    requires setting.variationPercent <= 100 && g < |gaps| && ExactGood(setting, cfg, original, gaps, prune, g, s)
    requires ExactTarget(setting, cfg, original, gaps, picks)
    requires Evolve(original, gaps, picks[..g]) == Some(s.route)
    requires RoutePosition(s.route, gaps[g]) == Some(position)
    requires ChoicesFit(setting, cfg, gaps[g], |original|, s, position)
    ensures Evolve(original, gaps, picks[..g + 1]).Some?
    ensures HasBy(Children(setting, cfg, gaps[g], prune, |original|, |gaps| - (g + 1), s, position), RouteOf,
                  Evolve(original, gaps, picks[..g + 1]).value)
  {
    hide RoutePosition, Rank, Takes, Children, WithInsertion, ExactGood, Run, Added, Evaluate, AcceptedCount, HasBy;
    TargetAt(setting, cfg, original, gaps, g, s, picks);
    EvolveAt(original, gaps, picks, g, s.route, position);
    hide Evolve, ExactTarget;
    var remaining := |gaps| - (g + 1);
    var children := Children(setting, cfg, gaps[g], prune, |original|, remaining, s, position);
    if picks[g] == [] {
      SkipIsChild(setting, cfg, gaps[g], prune, |original|, remaining, s, position);
      HasItself(children, s);
    } else {
      var x := picks[g][0];
      ChildrenComplete(setting, cfg, gaps[g], prune, |original|, remaining, s, position, x);
      HasItself(children, WithInsertion(cfg, s.route, position, x));
      InsertedRoute(cfg, s.route, position, x);
    }
  }

  lemma HasItself(states: seq<ExactState>, s: ExactState)
    requires s in states
    ensures HasBy(states, RouteOf, RouteOf(s))
  {
  }

  lemma InsertedRoute(cfg: ExactConfig, route: seq<nat>, position: nat, x: nat)
    requires position <= |route|
    ensures RouteOf(WithInsertion(cfg, route, position, x)) == Insert(route, position, x)
  {
  }

  lemma SkipIsChild(setting: Setting, cfg: ExactConfig, gap: Gap, prune: bool, base: nat, remaining: nat,
                    s: ExactState, position: nat)
    requires setting.variationPercent <= 100 && position <= |s.route| && base <= |s.route|
    requires |s.route| - base + remaining >= cfg.requested
    ensures s in Children(setting, cfg, gap, prune, base, remaining, s, position)
  {
    hide Rank;
  }

  lemma EvolveAt(original: seq<nat>, gaps: seq<Gap>, picks: seq<seq<nat>>, g: nat, route: seq<nat>, position: nat)
    requires g < |picks| <= |gaps| && Evolve(original, gaps, picks[..g]) == Some(route)
    requires RoutePosition(route, gaps[g]) == Some(position)
    ensures position <= |route|
    ensures Evolve(original, gaps, picks[..g + 1]) ==
            Some(if picks[g] == [] then route else Insert(route, position, picks[g][0]))
  {
    hide RoutePosition;
    assert picks[..g + 1][..g] == picks[..g];
  }

  /** What a target takes at gap `g`, and what that leaves for the later gaps. */
  lemma TargetAt(setting: Setting, cfg: ExactConfig, original: seq<nat>, gaps: seq<Gap>, g: nat, s: ExactState,
                 picks: seq<seq<nat>>)
    requires g < |gaps| && ExactTarget(setting, cfg, original, gaps, picks)
    requires Evolve(original, gaps, picks[..g]) == Some(s.route)
    ensures |original| <= |s.route|
    ensures picks[g] == [] ==> |s.route| - |original| + (|gaps| - (g + 1)) >= cfg.requested
    ensures picks[g] != [] ==> |s.route| - |original| < cfg.requested && Takes(setting, s.route, gaps[g], picks[g][0])
  {
    hide Evolve, Takes;
    RunPrefix(setting, original, gaps, picks, g);
    RunPrefix(setting, original, gaps, picks, g + 1);
    RunKeeps(setting, original, gaps, picks[..g]);
    assert picks[..g + 1][..g] == picks[..g];
  }

  lemma ChildrenGood(setting: Setting, cfg: ExactConfig, original: seq<nat>, gaps: seq<Gap>, prune: bool, g: nat,
                     s: ExactState, position: nat)
    requires setting.variationPercent <= 100 && g < |gaps| && ExactGood(setting, cfg, original, gaps, prune, g, s)
    requires RoutePosition(s.route, gaps[g]) == Some(position)
    ensures |original| <= |s.route| && position <= |s.route|
    ensures AllExact(setting, cfg, original, gaps, prune, g + 1,
                     Children(setting, cfg, gaps[g], prune, |original|, |gaps| - (g + 1), s, position))
  {
    hide ExactGood, Children;
    ExactSize(setting, cfg, original, gaps, prune, g, s);
    var children := Children(setting, cfg, gaps[g], prune, |original|, |gaps| - (g + 1), s, position);
    forall next | next in children
      ensures ExactGood(setting, cfg, original, gaps, prune, g + 1, next)
    {
      ChildGood(setting, cfg, original, gaps, prune, g, s, position, next);
    }
  }

  lemma ExactSize(setting: Setting, cfg: ExactConfig, original: seq<nat>, gaps: seq<Gap>, prune: bool, g: nat,
                  s: ExactState)
    requires g <= |gaps| && ExactGood(setting, cfg, original, gaps, prune, g, s)
    ensures |original| <= |s.route| <= |original| + cfg.requested
    ensures prune && g == |gaps| ==> |s.route| == |original| + cfg.requested
    ensures s.objective == cfg.objective(s.route)
  {
  }

  /** Every target that passes through this state goes on into `next`. */
  ghost predicate Continues(setting: Setting, cfg: ExactConfig, original: seq<nat>, gaps: seq<Gap>, g: nat,
                            s: ExactState, next: seq<ExactState>)
    requires g < |gaps|
  {
    forall picks: seq<seq<nat>> | ExactTarget(setting, cfg, original, gaps, picks) &&
                                  Evolve(original, gaps, picks[..g]) == Some(s.route) ::
      PassesThrough(original, gaps, picks, g + 1, next)
  }

  lemma HasByGrows(a: seq<ExactState>, b: seq<ExactState>, route: seq<nat>)
    requires HasBy(a, RouteOf, route) || HasBy(b, RouteOf, route)
    ensures HasBy(a + b, RouteOf, route)
  {
    var s :| (s in a || s in b) && RouteOf(s) == route;
    assert s in a + b;
  }

  lemma ContinuesGrows(setting: Setting, cfg: ExactConfig, original: seq<nat>, gaps: seq<Gap>, g: nat, s: ExactState,
                       a: seq<ExactState>, b: seq<ExactState>)
    requires g < |gaps|
    requires Continues(setting, cfg, original, gaps, g, s, a) || Continues(setting, cfg, original, gaps, g, s, b)
    ensures Continues(setting, cfg, original, gaps, g, s, a + b)
  {
    hide Run, Evolve, Added;
    forall picks: seq<seq<nat>> | ExactTarget(setting, cfg, original, gaps, picks) &&
                                  Evolve(original, gaps, picks[..g]) == Some(s.route)
      ensures PassesThrough(original, gaps, picks, g + 1, a + b)
    {
      HasByGrows(a, b, Evolve(original, gaps, picks[..g + 1]).value);
    }
  }

  lemma ChildrenContinue(setting: Setting, cfg: ExactConfig, original: seq<nat>, gaps: seq<Gap>, prune: bool, g: nat,
                         s: ExactState, position: nat)
    requires setting.variationPercent <= 100 && g < |gaps| && ExactGood(setting, cfg, original, gaps, prune, g, s)
    requires RoutePosition(s.route, gaps[g]) == Some(position)
    requires |original| <= |s.route| && ChoicesFit(setting, cfg, gaps[g], |original|, s, position)
    ensures Continues(setting, cfg, original, gaps, g, s,
                      Children(setting, cfg, gaps[g], prune, |original|, |gaps| - (g + 1), s, position))
  {
    hide ExactGood, Children, Run, Evolve, Added, RoutePosition, ChoicesFit;
    forall picks: seq<seq<nat>> | ExactTarget(setting, cfg, original, gaps, picks) &&
                                  Evolve(original, gaps, picks[..g]) == Some(s.route)
      ensures PassesThrough(original, gaps, picks, g + 1,
                            Children(setting, cfg, gaps[g], prune, |original|, |gaps| - (g + 1), s, position))
    {
      TargetContinues(setting, cfg, original, gaps, prune, g, s, position, picks);
    }
  }

  lemma CoversContinues(setting: Setting, cfg: ExactConfig, original: seq<nat>, gaps: seq<Gap>, g: nat,
                        states: seq<ExactState>, next: seq<ExactState>)
    requires g < |gaps| && ExactCovers(setting, cfg, original, gaps, g, states)
    requires forall i | 0 <= i < |states| :: Continues(setting, cfg, original, gaps, g, states[i], next)
    ensures ExactCovers(setting, cfg, original, gaps, g + 1, next)
  {
    hide Run, Evolve, Added;
    forall picks: seq<seq<nat>> | ExactTarget(setting, cfg, original, gaps, picks)
      ensures PassesThrough(original, gaps, picks, g + 1, next)
    {
      assert PassesThrough(original, gaps, picks, g, states);
      var s :| s in states && RouteOf(s) == Evolve(original, gaps, picks[..g]).value;
      var i :| 0 <= i < |states| && states[i] == s;
      assert Continues(setting, cfg, original, gaps, g, states[i], next);
    }
  }

  function MostChoices(gaps: seq<Gap>): (n: nat)
    ensures n >= 1
    ensures forall g | 0 <= g < |gaps| :: 1 + |gaps[g].candidates| <= n
  {
    if gaps == [] then 1
    else
      assert forall g | 0 <= g < |gaps| - 1 :: gaps[g] == gaps[..|gaps| - 1][g];
      Max(1 + |gaps[|gaps| - 1].candidates|, MostChoices(gaps[..|gaps| - 1]))
  }

  /** Limits that cover every run over these gaps. */
  ghost predicate ExactRoomy(cfg: ExactConfig, gaps: seq<Gap>) {
    cfg.candidateLimit + 1 >= MostChoices(gaps) && cfg.beamWidth >= Power(MostChoices(gaps), |gaps|)
  }

  /** The successors of one state, none when the gap is not found. */
  ghost function ExactNext(setting: Setting, cfg: ExactConfig, original: seq<nat>, gaps: seq<Gap>, prune: bool,
                           g: nat, s: ExactState): seq<ExactState>
    requires setting.variationPercent <= 100 && g < |gaps|
  {
    match RoutePosition(s.route, gaps[g])
    case None => []
    case Some(position) =>
      if |s.route| < |original| then []
      else Children(setting, cfg, gaps[g], prune, |original|, |gaps| - (g + 1), s, position)
  }

  ghost predicate ExactNextUncut(setting: Setting, cfg: ExactConfig, original: seq<nat>, gaps: seq<Gap>, g: nat,
                                 s: ExactState)
    requires setting.variationPercent <= 100 && g < |gaps|
  {
    var position := RoutePosition(s.route, gaps[g]);
    position.Some? ==> ChoicesFit(setting, cfg, gaps[g], |original|, s, position.value)
  }

  /** The successors of all states, in state order. */
  ghost function ExactExpansion(setting: Setting, cfg: ExactConfig, original: seq<nat>, gaps: seq<Gap>, prune: bool,
                                g: nat, states: seq<ExactState>): seq<ExactState>
    requires setting.variationPercent <= 100 && g < |gaps|
  {
    if states == [] then []
    else
      ExactExpansion(setting, cfg, original, gaps, prune, g, states[..|states| - 1]) +
      ExactNext(setting, cfg, original, gaps, prune, g, states[|states| - 1])
  }

  /** The candidate limit leaves out nothing at this gap. */
  ghost predicate ExpansionUncut(setting: Setting, cfg: ExactConfig, original: seq<nat>, gaps: seq<Gap>, g: nat,
                                 states: seq<ExactState>)
    requires setting.variationPercent <= 100 && g < |gaps|
  {
    forall s | s in states :: ExactNextUncut(setting, cfg, original, gaps, g, s)
  }

  lemma ExactNextGood(setting: Setting, cfg: ExactConfig, original: seq<nat>, gaps: seq<Gap>, prune: bool, g: nat,
                      s: ExactState)
    requires setting.variationPercent <= 100 && g < |gaps| && ExactGood(setting, cfg, original, gaps, prune, g, s)
    ensures AllExact(setting, cfg, original, gaps, prune, g + 1, ExactNext(setting, cfg, original, gaps, prune, g, s))
    ensures |ExactNext(setting, cfg, original, gaps, prune, g, s)| <= MostChoices(gaps)
    ensures ExactRoomy(cfg, gaps) ==> ExactNextUncut(setting, cfg, original, gaps, g, s)
    ensures ExactNextUncut(setting, cfg, original, gaps, g, s) ==>
              Continues(setting, cfg, original, gaps, g, s, ExactNext(setting, cfg, original, gaps, prune, g, s))
  {
    hide ExactGood, Children, RoutePosition, Continues, ExactRoomy, ChoicesFit, AllExact;
    var position := RoutePosition(s.route, gaps[g]);
    if position.None? {
      NothingExact(setting, cfg, original, gaps, prune, g + 1);
      LostContinues(setting, cfg, original, gaps, g, s);
    } else {
      ChildrenGood(setting, cfg, original, gaps, prune, g, s, position.value);
      ChildrenSize(setting, cfg, gaps[g], prune, |original|, |gaps| - (g + 1), s, position.value);
      if ExactRoomy(cfg, gaps) {
        RoomyChoices(setting, cfg, original, gaps, g, s, position.value);
      }
      if ChoicesFit(setting, cfg, gaps[g], |original|, s, position.value) {
        ChildrenContinue(setting, cfg, original, gaps, prune, g, s, position.value);
      }
    }
  }

  /** No run to the count passes a state that has lost its gap. */
  lemma LostContinues(setting: Setting, cfg: ExactConfig, original: seq<nat>, gaps: seq<Gap>, g: nat, s: ExactState)
    requires g < |gaps| && RoutePosition(s.route, gaps[g]).None?
    ensures Continues(setting, cfg, original, gaps, g, s, [])
  {
    hide RoutePosition, Run, Evolve, Added;
    forall picks: seq<seq<nat>>
      ensures !(ExactTarget(setting, cfg, original, gaps, picks) && Evolve(original, gaps, picks[..g]) == Some(s.route))
    {
      if ExactTarget(setting, cfg, original, gaps, picks) && Evolve(original, gaps, picks[..g]) == Some(s.route) {
        TargetFindsGap(setting, cfg, original, gaps, g, s, picks);
        assert false;
      }
    }
  }

  lemma TargetFindsGap(setting: Setting, cfg: ExactConfig, original: seq<nat>, gaps: seq<Gap>, g: nat, s: ExactState,
                       picks: seq<seq<nat>>)
    requires g < |gaps| && ExactTarget(setting, cfg, original, gaps, picks)
    requires Evolve(original, gaps, picks[..g]) == Some(s.route)
    ensures RoutePosition(s.route, gaps[g]).Some?
  {
    hide RoutePosition, Takes, Added;
    RunPrefix(setting, original, gaps, picks, g + 1);
    assert picks[..g + 1][..g] == picks[..g];
  }

  lemma {:induction false} ExactExpansionGood(setting: Setting, cfg: ExactConfig, original: seq<nat>, gaps: seq<Gap>,
                                              prune: bool, g: nat, states: seq<ExactState>)
    requires setting.variationPercent <= 100 && g < |gaps| && AllExact(setting, cfg, original, gaps, prune, g, states)
    ensures AllExact(setting, cfg, original, gaps, prune, g + 1,
                     ExactExpansion(setting, cfg, original, gaps, prune, g, states))
    ensures ExactRoomy(cfg, gaps) ==> ExpansionUncut(setting, cfg, original, gaps, g, states)
  {
    hide ExactGood, ExactNext, ExactNextUncut, ExactRoomy;
    if states != [] {
      var n := |states| - 1;
      var fewer, last := states[..n], states[n];
      assert states == fewer + [last];
      assert ExactGood(setting, cfg, original, gaps, prune, g, last);
      ExactExpansionGood(setting, cfg, original, gaps, prune, g, fewer);
      ExactNextGood(setting, cfg, original, gaps, prune, g, last);
    }
  }

  lemma {:induction false} ExactExpansionSize(setting: Setting, cfg: ExactConfig, original: seq<nat>, gaps: seq<Gap>,
                                              prune: bool, g: nat, states: seq<ExactState>)
    requires setting.variationPercent <= 100 && g < |gaps| && AllExact(setting, cfg, original, gaps, prune, g, states)
    ensures |ExactExpansion(setting, cfg, original, gaps, prune, g, states)| <= |states| * MostChoices(gaps)
  {
    hide ExactGood, ExactNext, ExactNextUncut, ExactRoomy, MostChoices;
    var most := MostChoices(gaps);
    if states == [] {
      ProductNonNegative(0, most);
    } else {
      var n := |states| - 1;
      assert ExactGood(setting, cfg, original, gaps, prune, g, states[n]);
      ExactExpansionSize(setting, cfg, original, gaps, prune, g, states[..n]);
      ExactNextGood(setting, cfg, original, gaps, prune, g, states[n]);
      assert n * most + most == (n + 1) * most;
    }
  }

  lemma {:induction false} ExpansionContinues(setting: Setting, cfg: ExactConfig, original: seq<nat>, gaps: seq<Gap>,
                                              prune: bool, g: nat, states: seq<ExactState>, s: ExactState)
    requires setting.variationPercent <= 100 && g < |gaps| && AllExact(setting, cfg, original, gaps, prune, g, states)
    requires ExpansionUncut(setting, cfg, original, gaps, g, states) && s in states
    ensures Continues(setting, cfg, original, gaps, g, s,
                      ExactExpansion(setting, cfg, original, gaps, prune, g, states))
  {
    hide ExactGood, ExactNext, ExactNextUncut, Continues;
    var n := |states| - 1;
    var fewer, last := states[..n], states[n];
    assert states == fewer + [last];
    assert ExactGood(setting, cfg, original, gaps, prune, g, last);
    var before, next := ExactExpansion(setting, cfg, original, gaps, prune, g, fewer),
        ExactNext(setting, cfg, original, gaps, prune, g, last);
    if s == last {
      ExactNextGood(setting, cfg, original, gaps, prune, g, last);
    } else {
      ExpansionContinues(setting, cfg, original, gaps, prune, g, fewer, s);
    }
    ContinuesGrows(setting, cfg, original, gaps, g, s, before, next);
  }

  /** Uncut, the next generation is passed by every run to the count. */
  lemma ExactExpansionCovers(setting: Setting, cfg: ExactConfig, original: seq<nat>, gaps: seq<Gap>, prune: bool,
                             g: nat, states: seq<ExactState>)
    requires setting.variationPercent <= 100 && g < |gaps| && AllExact(setting, cfg, original, gaps, prune, g, states)
    requires ExpansionUncut(setting, cfg, original, gaps, g, states) &&
             ExactCovers(setting, cfg, original, gaps, g, states)
    ensures ExactCovers(setting, cfg, original, gaps, g + 1,
                        ExactExpansion(setting, cfg, original, gaps, prune, g, states))
  {
    hide ExactCovers, Continues, ExpansionUncut, AllExact;
    var next := ExactExpansion(setting, cfg, original, gaps, prune, g, states);
    forall i | 0 <= i < |states| ensures Continues(setting, cfg, original, gaps, g, states[i], next) {
      ExpansionContinues(setting, cfg, original, gaps, prune, g, states, states[i]);
    }
    CoversContinues(setting, cfg, original, gaps, g, states, next);
  }

  /** All states at one gap, in state order.  `cut` says exactly whether the
      candidate limit left out an accepted candidate. */
  method ExpandExact(setting: Setting, cfg: ExactConfig, original: seq<nat>, gaps: seq<Gap>, prune: bool, g: nat,
                     states: seq<ExactState>)
    returns (lost: bool, expanded: seq<ExactState>, ghost cut: bool)
    requires setting.variationPercent <= 100 && g < |gaps| && AllExact(setting, cfg, original, gaps, prune, g, states)
    ensures lost <==> exists s :: s in states && RoutePosition(s.route, gaps[g]).None?
    ensures !lost ==> expanded == ExactExpansion(setting, cfg, original, gaps, prune, g, states)
    ensures !lost ==> (cut <==> !ExpansionUncut(setting, cfg, original, gaps, g, states))
    ensures AllExact(setting, cfg, original, gaps, prune, g + 1, expanded)
    ensures |expanded| <= |states| * MostChoices(gaps)
    ensures ExactRoomy(cfg, gaps) ==> !cut
    ensures !lost && !cut && ExactCovers(setting, cfg, original, gaps, g, states) ==>
              ExactCovers(setting, cfg, original, gaps, g + 1, expanded)
  {
    hide ExactGood, Children, RoutePosition, ExactCovers, MostChoices, ExactRoomy, ChoicesFit, AllExact, ExactNext,
      ExactNextUncut, ExpansionUncut;
    expanded, cut := [], false;
    NothingUncut(setting, cfg, original, gaps, g);
    NothingExact(setting, cfg, original, gaps, prune, g + 1);
    ExactExpansionGood(setting, cfg, original, gaps, prune, g, states);
    ExactExpansionSize(setting, cfg, original, gaps, prune, g, states);
    var k := 0;
    while k < |states|
      invariant 0 <= k <= |states|
      invariant expanded == ExactExpansion(setting, cfg, original, gaps, prune, g, states[..k])
      invariant cut <==> !ExpansionUncut(setting, cfg, original, gaps, g, states[..k])
      invariant forall i | 0 <= i < k :: RoutePosition(states[i].route, gaps[g]).Some?
    {
      var s := states[k];
      AllExactMember(setting, cfg, original, gaps, prune, g, states, s);
      var position := RoutePosition(s.route, gaps[g]);
      if position.None? {
        ProductNonNegative(|states|, MostChoices(gaps));
        return true, [], false;
      }
      NextIsChildren(setting, cfg, original, gaps, prune, g, s, position.value);
      ExpansionStep(setting, cfg, original, gaps, prune, g, states, k);
      cut := cut || !ChoicesFit(setting, cfg, gaps[g], |original|, s, position.value);
      expanded := expanded + Children(setting, cfg, gaps[g], prune, |original|, |gaps| - (g + 1), s, position.value);
      k := k + 1;
    }
    assert states[..k] == states && states[..0] == [];
    if !cut && ExactCovers(setting, cfg, original, gaps, g, states) {
      ExactExpansionCovers(setting, cfg, original, gaps, prune, g, states);
    }
    return false, expanded, cut;
  }

  lemma NextIsChildren(setting: Setting, cfg: ExactConfig, original: seq<nat>, gaps: seq<Gap>, prune: bool, g: nat,
                       s: ExactState, position: nat)
    requires setting.variationPercent <= 100 && g < |gaps| && ExactGood(setting, cfg, original, gaps, prune, g, s)
    requires RoutePosition(s.route, gaps[g]) == Some(position)
    ensures |original| <= |s.route| && position <= |s.route|
    ensures ExactNext(setting, cfg, original, gaps, prune, g, s) ==
            Children(setting, cfg, gaps[g], prune, |original|, |gaps| - (g + 1), s, position)
    ensures ExactNextUncut(setting, cfg, original, gaps, g, s) <==>
            ChoicesFit(setting, cfg, gaps[g], |original|, s, position)
  {
    hide ExactGood, Children, RoutePosition, ChoicesFit;
    ChildrenGood(setting, cfg, original, gaps, prune, g, s, position);
  }

  lemma ExpansionStep(setting: Setting, cfg: ExactConfig, original: seq<nat>, gaps: seq<Gap>, prune: bool, g: nat,
                      states: seq<ExactState>, k: nat)
    requires setting.variationPercent <= 100 && g < |gaps| && k < |states|
    ensures ExactExpansion(setting, cfg, original, gaps, prune, g, states[..k + 1]) ==
            ExactExpansion(setting, cfg, original, gaps, prune, g, states[..k]) +
                ExactNext(setting, cfg, original, gaps, prune, g, states[k])
    ensures ExpansionUncut(setting, cfg, original, gaps, g, states[..k + 1]) <==>
            ExpansionUncut(setting, cfg, original, gaps, g, states[..k]) &&
                ExactNextUncut(setting, cfg, original, gaps, g, states[k])
  {
    hide ExactNext, ExactNextUncut;
    assert states[..k + 1] == states[..k] + [states[k]];
    assert states[..k + 1][..k] == states[..k];
  }

  lemma NothingUncut(setting: Setting, cfg: ExactConfig, original: seq<nat>, gaps: seq<Gap>, g: nat)
    requires setting.variationPercent <= 100 && g < |gaps|
    ensures ExpansionUncut(setting, cfg, original, gaps, g, [])
  {
  }

  lemma NothingExact(setting: Setting, cfg: ExactConfig, original: seq<nat>, gaps: seq<Gap>, prune: bool, g: nat)
    requires g <= |gaps|
    ensures AllExact(setting, cfg, original, gaps, prune, g, [])
  {
  }

  lemma RoomyChoices(setting: Setting, cfg: ExactConfig, original: seq<nat>, gaps: seq<Gap>, g: nat, s: ExactState,
                     position: nat)
    requires setting.variationPercent <= 100 && g < |gaps| && ExactRoomy(cfg, gaps) && position <= |s.route|
    ensures ChoicesFit(setting, cfg, gaps[g], |original|, s, position)
  {
    hide Rank, MostChoices, ExactRoomy;
    RoomyLimit(cfg, gaps, g);
    RankMembers(setting, gaps[g], s.route, position);
  }

  lemma RoomyLimit(cfg: ExactConfig, gaps: seq<Gap>, g: nat)
    requires ExactRoomy(cfg, gaps) && g < |gaps|
    ensures cfg.candidateLimit >= |gaps[g].candidates|
  {
  }

  // ----- one beam for each addition count -----

  function AddedTo(base: nat): ExactState -> nat {
    (s: ExactState) => Minus(|s.route|, base)
  }

  /** One bucket in order, each route once. */
  function Tidied(states: seq<ExactState>): (tidied: seq<ExactState>)
    ensures |tidied| <= |states|
  {
    DedupBy(SortBy(states, ExactKey), RouteOf)
  }

  /** One bucket: ordered, deduplicated, cut to the beam. */
  function CutBucket(beam: nat): seq<ExactState> -> seq<ExactState> {
    (states: seq<ExactState>) => Take(Tidied(states), beam)
  }

  function RetainExact(states: seq<ExactState>, base: nat, beam: nat, counts: nat): seq<ExactState> {
    PerBucket(states, AddedTo(base), CutBucket(beam), counts)
  }

  /** Of one addition count the beam keeps nothing that comes after a state it drops. */
  lemma ExactBeamKeepsLeast(states: seq<ExactState>, base: nat, beam: nat, counts: nat, c: nat, kept: ExactState,
                            dropped: ExactState)
    requires c < counts && AddedTo(base)(kept) == c && kept in RetainExact(states, base, beam, counts)
    requires dropped in Tidied(Bucket(states, AddedTo(base), c))
    requires dropped !in RetainExact(states, base, beam, counts)
    ensures NoWorse(kept.objective, kept.route, dropped.objective, dropped.route)
    ensures |CutBucket(beam)(Bucket(states, AddedTo(base), c))| == beam
  {
    hide Tidied, PerBucket, Bucket, CutBucket, Take, KeyLe;
    ExactKeyMeaning(kept, dropped);
    var b := PerBucketOrigin(states, AddedTo(base), CutBucket(beam), counts, kept);
    CutBucketKeeps(beam, Bucket(states, AddedTo(base), b), []);
    BucketMembers(states, AddedTo(base), b);
    var mine := Bucket(states, AddedTo(base), c);
    if dropped in CutBucket(beam)(mine) {
      PerBucketHolds(states, AddedTo(base), CutBucket(beam), counts, c, dropped);
    }
    CutKeepsLeast(beam, mine, kept, dropped);
  }

  /** Among routes with as many additions the beam keeps none with a larger
      objective than one it drops, nor a later one with the same objective, and
      it drops none before it is full. */
  lemma ExactBeamPrefers(setting: Setting, cfg: ExactConfig, original: seq<nat>, gaps: seq<Gap>, prune: bool, g: nat,
                         states: seq<ExactState>, kept: seq<nat>, dropped: seq<nat>)
    requires g <= |gaps| && AllExact(setting, cfg, original, gaps, prune, g, states)
    requires var retained := RetainExact(states, |original|, cfg.beamWidth, cfg.requested + 1);
             HasBy(retained, RouteOf, kept) && HasBy(states, RouteOf, dropped) && !HasBy(retained, RouteOf, dropped)
    requires |kept| == |dropped|
    ensures NoWorse(cfg.objective(kept), kept, cfg.objective(dropped), dropped)
    ensures |original| <= |kept|
    ensures |CutBucket(cfg.beamWidth)(Bucket(states, AddedTo(|original|), |kept| - |original|))| == cfg.beamWidth
  {
    hide RetainExact, Bucket, Tidied, CutBucket, NoWorse, ExactGood;
    var counts := cfg.requested + 1;
    var a :| a in RetainExact(states, |original|, cfg.beamWidth, counts) && RouteOf(a) == kept;
    var x :| x in states && RouteOf(x) == dropped;
    RetainExactMembers(states, |original|, cfg.beamWidth, counts, a);
    ExactSize(setting, cfg, original, gaps, prune, g, a);
    ExactSize(setting, cfg, original, gaps, prune, g, x);
    var mine := Bucket(states, AddedTo(|original|), AddedTo(|original|)(x));
    BucketMembers(states, AddedTo(|original|), AddedTo(|original|)(x));
    var b := TidiedHolds(mine, x);
    ExactSize(setting, cfg, original, gaps, prune, g, b);
    assert b !in RetainExact(states, |original|, cfg.beamWidth, counts);
    ExactBeamKeepsLeast(states, |original|, cfg.beamWidth, counts, AddedTo(|original|)(x), a, b);
  }

  lemma TidiedHolds(states: seq<ExactState>, x: ExactState) returns (b: ExactState)
    requires x in states
    ensures b in Tidied(states) && b in states && b.route == x.route
  {
    hide SortBy, DedupBy;
    var sorted := SortBy(states, ExactKey);
    SortByMembers(states, ExactKey);
    assert x in sorted && RouteOf(x) == x.route;
    DedupByKeeps(sorted, RouteOf, x.route);
    assert HasBy(sorted, RouteOf, x.route);
    b :| b in DedupBy(sorted, RouteOf) && RouteOf(b) == x.route;
  }

  lemma CutKeepsLeast(beam: nat, states: seq<ExactState>, kept: ExactState, dropped: ExactState)
    requires kept in CutBucket(beam)(states) && dropped !in CutBucket(beam)(states)
    requires dropped in Tidied(states)
    ensures KeyLe(ExactKey(kept), ExactKey(dropped)) && |CutBucket(beam)(states)| == beam
  {
    hide SortBy, DedupBy, Take, KeyLe, SortedBy;
    SortBySorts(states, ExactKey);
    DedupBySorted(SortBy(states, ExactKey), RouteOf, ExactKey);
    TakeKeepsLeast(DedupBy(SortBy(states, ExactKey), RouteOf), beam, ExactKey, kept, dropped);
  }

  lemma CutBucketKeeps(beam: nat, states: seq<ExactState>, route: seq<nat>)
    ensures |CutBucket(beam)(states)| <= |states|
    ensures forall s :: s in CutBucket(beam)(states) ==> s in states
    ensures |Tidied(states)| <= beam && HasBy(states, RouteOf, route) ==> HasBy(CutBucket(beam)(states), RouteOf, route)
  {
    hide SortBy, DedupBy, HasBy, Take, CutBucket;
    var sorted := SortBy(states, ExactKey);
    var deduped := DedupBy(sorted, RouteOf);
    SortByMembers(states, ExactKey);
    DedupByKeeps(sorted, RouteOf, route);
    if HasBy(states, RouteOf, route) {
      SortKeepsRoute(states, route);
    }
    CutBucketIs(beam, states);
    TakeMeaning(deduped, beam);
  }

  lemma CutBucketIs(beam: nat, states: seq<ExactState>)
    ensures CutBucket(beam)(states) == Take(Tidied(states), beam)
  {
    hide SortBy, DedupBy, Take;
  }

  lemma TakeMeaning(states: seq<ExactState>, limit: nat)
    ensures forall s :: s in Take(states, limit) ==> s in states
    ensures |states| <= limit ==> Take(states, limit) == states
  {
  }

  lemma SortKeepsRoute(states: seq<ExactState>, route: seq<nat>)
    requires HasBy(states, RouteOf, route)
    ensures HasBy(SortBy(states, ExactKey), RouteOf, route)
  {
    hide SortBy;
    SortByMembers(states, ExactKey);
    var s :| s in states && RouteOf(s) == route;
    assert s in SortBy(states, ExactKey);
  }

  lemma RetainExactSize(states: seq<ExactState>, base: nat, beam: nat, counts: nat)
    ensures |RetainExact(states, base, beam, counts)| <= |states|
  {
    hide PerBucket, CutBucket, CountBelow;
    forall ys ensures |CutBucket(beam)(ys)| <= |ys| {
      CutBucketKeeps(beam, ys, []);
    }
    PerBucketSize(states, AddedTo(base), CutBucket(beam), counts);
  }

  lemma RetainExactMembers(states: seq<ExactState>, base: nat, beam: nat, counts: nat, s: ExactState)
    requires s in RetainExact(states, base, beam, counts)
    ensures s in states
  {
    hide PerBucket, CutBucket, Bucket;
    var c := PerBucketOrigin(states, AddedTo(base), CutBucket(beam), counts, s);
    CutBucketKeeps(beam, Bucket(states, AddedTo(base), c), []);
    BucketMembers(states, AddedTo(base), c);
  }

  lemma RetainExactKeeps(states: seq<ExactState>, base: nat, beam: nat, counts: nat, route: seq<nat>)
    requires HasBy(states, RouteOf, route) && Minus(|route|, base) < counts
    requires |Tidied(Bucket(states, AddedTo(base), Minus(|route|, base)))| <= beam
    ensures HasBy(RetainExact(states, base, beam, counts), RouteOf, route)
  {
    hide PerBucket, CutBucket, Bucket, Tidied;
    var s :| s in states && RouteOf(s) == route;
    var c := AddedTo(base)(s);
    var bucket := Bucket(states, AddedTo(base), c);
    BucketMembers(states, AddedTo(base), c);
    assert s in bucket;
    CutBucketKeeps(beam, bucket, route);
    var kept :| kept in CutBucket(beam)(bucket) && RouteOf(kept) == route;
    PerBucketHolds(states, AddedTo(base), CutBucket(beam), counts, c, kept);
  }

  /** No addition count holds more routes than the beam. */
  ghost predicate ExactBeamUncut(states: seq<ExactState>, base: nat, beam: nat) {
    forall c: nat :: |Tidied(Bucket(states, AddedTo(base), c))| <= beam
  }

  lemma SmallEnoughForExactBeam(states: seq<ExactState>, base: nat, beam: nat)
    requires |states| <= beam
    ensures ExactBeamUncut(states, base, beam)
  {
    hide Bucket, Tidied;
    forall c: nat ensures |Tidied(Bucket(states, AddedTo(base), c))| <= beam {
      BucketMembers(states, AddedTo(base), c);
    }
  }

  lemma RetainExactCovers(setting: Setting, cfg: ExactConfig, original: seq<nat>, gaps: seq<Gap>, prune: bool, g: nat,
                          states: seq<ExactState>)
    requires g <= |gaps| && AllExact(setting, cfg, original, gaps, prune, g, states)
    requires ExactBeamUncut(states, |original|, cfg.beamWidth)
    requires ExactCovers(setting, cfg, original, gaps, g, states)
    ensures ExactCovers(setting, cfg, original, gaps, g,
                        RetainExact(states, |original|, cfg.beamWidth, cfg.requested + 1))
  {
    hide Run, Evolve, Added, RetainExact, ExactGood, Tidied, Bucket;
    var kept := RetainExact(states, |original|, cfg.beamWidth, cfg.requested + 1);
    forall picks: seq<seq<nat>> | ExactTarget(setting, cfg, original, gaps, picks)
      ensures PassesThrough(original, gaps, picks, g, kept)
    {
      assert PassesThrough(original, gaps, picks, g, states);
      var route := Evolve(original, gaps, picks[..g]).value;
      var s :| s in states && RouteOf(s) == route;
      ExactSize(setting, cfg, original, gaps, prune, g, s);
      RetainExactKeeps(states, |original|, cfg.beamWidth, cfg.requested + 1, route);
    }
  }

  // ----- the search -----

  lemma StartExact(setting: Setting, cfg: ExactConfig, original: seq<nat>, gaps: seq<Gap>, prune: bool)
    requires prune ==> cfg.requested <= |gaps|
    ensures var start := [ExactState(original, cfg.objective(original))];
            && AllExact(setting, cfg, original, gaps, prune, 0, start)
            && ExactCovers(setting, cfg, original, gaps, 0, start)
  {
    var s := ExactState(original, cfg.objective(original));
    var none: seq<seq<nat>> := [];
    assert |none| == 0 && Run(setting, original, gaps, none) && Evolve(original, gaps, none) == Some(s.route);
    forall picks: seq<seq<nat>> | ExactTarget(setting, cfg, original, gaps, picks)
      ensures PassesThrough(original, gaps, picks, 0, [s])
    {
      assert picks[..0] == none;
      assert s in [s] && RouteOf(s) == original;
    }
  }

  function Finals(states: seq<ExactState>, size: nat): seq<ExactState> {
    Bucket(states, (s: ExactState) => |s.route|, size)
  }

  /** The best of the states that reached the count, first among equals. */
  function SelectExact(states: seq<ExactState>, size: nat): Option<seq<nat>> {
    var finals := SortBy(Finals(states, size), ExactKey);
    if finals == [] then None else Some(finals[0].route)
  }

  lemma SelectExactIsBest(states: seq<ExactState>, size: nat)
    ensures SelectExact(states, size).Some? ==>
              exists s :: s in states && s.route == SelectExact(states, size).value && |s.route| == size &&
                forall t | t in states && |t.route| == size :: NoWorse(s.objective, s.route, t.objective, t.route)
    ensures SelectExact(states, size).None? ==> forall t | t in states :: |t.route| != size
  {
    hide KeyLe, SortBy, Bucket;
    var all := Finals(states, size);
    var finals := SortBy(all, ExactKey);
    BucketMembers(states, (s: ExactState) => |s.route|, size);
    SortByMembers(all, ExactKey);
    SortBySorts(all, ExactKey);
    if finals != [] {
      var s := finals[0];
      assert s in finals;
      forall t | t in states && |t.route| == size ensures NoWorse(s.objective, s.route, t.objective, t.route) {
        assert t in all && t in finals;
        var i :| 0 <= i < |finals| && finals[i] == t;
        assert KeyLe(ExactKey(finals[0]), ExactKey(finals[i]));
        ExactKeyMeaning(s, t);
      }
    } else {
      forall t | t in states ensures |t.route| != size {
        assert t in all ==> t in finals;
      }
    }
  }

  lemma RetainExactSound(setting: Setting, cfg: ExactConfig, original: seq<nat>, gaps: seq<Gap>, prune: bool, g: nat,
                         states: seq<ExactState>)
    requires g <= |gaps| && AllExact(setting, cfg, original, gaps, prune, g, states)
    ensures AllExact(setting, cfg, original, gaps, prune, g,
                     RetainExact(states, |original|, cfg.beamWidth, cfg.requested + 1))
  {
    hide ExactGood, RetainExact;
    forall s | s in RetainExact(states, |original|, cfg.beamWidth, cfg.requested + 1)
      ensures ExactGood(setting, cfg, original, gaps, prune, g, s)
    {
      RetainExactMembers(states, |original|, cfg.beamWidth, cfg.requested + 1, s);
    }
  }

  lemma ExactFits(cfg: ExactConfig, gaps: seq<Gap>, g: nat, states: nat, expanded: nat)
    requires ExactRoomy(cfg, gaps) && g < |gaps|
    requires states <= Power(MostChoices(gaps), g) && expanded <= states * MostChoices(gaps)
    ensures expanded <= Power(MostChoices(gaps), g + 1) <= cfg.beamWidth
  {
    hide Power, MostChoices;
    var most := MostChoices(gaps);
    MulMonotone(states, Power(most, g), most, most);
    PowerStep(most, g);
    PowerGrows(most, g + 1, |gaps|);
  }

  /** What the search found, judged against every run with the wanted count. */
  ghost predicate ExactAnswer(setting: Setting, cfg: ExactConfig, original: seq<nat>, gaps: seq<Gap>, cut: bool,
                              result: ExactOutcome) {
    match result
    case InvalidExactConfig => cfg.candidateLimit == 0 || cfg.beamWidth == 0
    case GapLost(_) => !GapsFit(original, gaps)
    case Found(route) =>
      && (exists picks: seq<seq<nat>> ::
            ExactTarget(setting, cfg, original, gaps, picks) && Evolve(original, gaps, picks) == Some(route))
      && (!cut ==>
            forall picks: seq<seq<nat>>, other: seq<nat> |
              ExactTarget(setting, cfg, original, gaps, picks) && Evolve(original, gaps, picks) == Some(other) ::
              NoWorse(cfg.objective(route), route, cfg.objective(other), other))
    case NoneFound =>
      !cut ==> forall picks: seq<seq<nat>> :: !ExactTarget(setting, cfg, original, gaps, picks)
  }

  lemma ExactFound(setting: Setting, cfg: ExactConfig, original: seq<nat>, gaps: seq<Gap>, prune: bool, cut: bool,
                   states: seq<ExactState>, route: seq<nat>)
    requires AllExact(setting, cfg, original, gaps, prune, |gaps|, states)
    requires !cut ==> ExactCovers(setting, cfg, original, gaps, |gaps|, states)
    requires SelectExact(states, |original| + cfg.requested) == Some(route)
    ensures ExactAnswer(setting, cfg, original, gaps, cut, Found(route))
  {
    hide Run, Evolve, Added, ExactRoomy, KeyLe, SelectExact, NoWorse;
    SelectExactIsBest(states, |original| + cfg.requested);
    var s :| s in states && s.route == route && |s.route| == |original| + cfg.requested &&
      forall t | t in states && |t.route| == |original| + cfg.requested ::
        NoWorse(s.objective, s.route, t.objective, t.route);
    assert ExactGood(setting, cfg, original, gaps, prune, |gaps|, s);
    var mine: seq<seq<nat>> :| |mine| == |gaps| && Run(setting, original, gaps, mine) &&
        Evolve(original, gaps, mine) == Some(s.route);
    RunKeeps(setting, original, gaps, mine);
    assert ExactTarget(setting, cfg, original, gaps, mine);
    if !cut {
      forall picks: seq<seq<nat>>, other: seq<nat> |
        ExactTarget(setting, cfg, original, gaps, picks) && Evolve(original, gaps, picks) == Some(other)
        ensures NoWorse(cfg.objective(route), route, cfg.objective(other), other)
      {
        var t := TargetReached(setting, cfg, original, gaps, prune, states, picks, other);
      }
    }
  }

  lemma TargetReached(setting: Setting, cfg: ExactConfig, original: seq<nat>, gaps: seq<Gap>, prune: bool,
                      states: seq<ExactState>, picks: seq<seq<nat>>, route: seq<nat>)
    returns (t: ExactState)
    requires AllExact(setting, cfg, original, gaps, prune, |gaps|, states)
    requires ExactCovers(setting, cfg, original, gaps, |gaps|, states)
    requires ExactTarget(setting, cfg, original, gaps, picks) && Evolve(original, gaps, picks) == Some(route)
    ensures t in states && t == ExactState(route, cfg.objective(route)) && |t.route| == |original| + cfg.requested
  {
    hide Run, Evolve, Added;
    assert picks[..|gaps|] == picks;
    assert PassesThrough(original, gaps, picks, |gaps|, states);
    t :| t in states && RouteOf(t) == route;
    assert ExactGood(setting, cfg, original, gaps, prune, |gaps|, t);
    RunKeeps(setting, original, gaps, picks);
  }

  lemma ExactNotFound(setting: Setting, cfg: ExactConfig, original: seq<nat>, gaps: seq<Gap>, prune: bool, cut: bool,
                      states: seq<ExactState>)
    requires AllExact(setting, cfg, original, gaps, prune, |gaps|, states)
    requires !cut ==> ExactCovers(setting, cfg, original, gaps, |gaps|, states)
    requires SelectExact(states, |original| + cfg.requested).None?
    ensures ExactAnswer(setting, cfg, original, gaps, cut, NoneFound)
  {
    hide Run, Evolve, Added, ExactRoomy, SelectExact, ExactTarget;
    SelectExactIsBest(states, |original| + cfg.requested);
    if !cut {
      forall picks: seq<seq<nat>> ensures !ExactTarget(setting, cfg, original, gaps, picks) {
        if ExactTarget(setting, cfg, original, gaps, picks) {
          TargetEvolves(setting, cfg, original, gaps, picks);
          var t := TargetReached(setting, cfg, original, gaps, prune, states, picks,
                                 Evolve(original, gaps, picks).value);
          assert false;
        }
      }
    }
  }

  lemma TargetEvolves(setting: Setting, cfg: ExactConfig, original: seq<nat>, gaps: seq<Gap>, picks: seq<seq<nat>>)
    requires ExactTarget(setting, cfg, original, gaps, picks)
    ensures |picks| <= |gaps| && Evolve(original, gaps, picks).Some?
  {
    hide Added;
    RunKeeps(setting, original, gaps, picks);
  }

  lemma LostMeansUnfit(setting: Setting, cfg: ExactConfig, original: seq<nat>, gaps: seq<Gap>, prune: bool, g: nat,
                       s: ExactState)
    requires g < |gaps| && ExactGood(setting, cfg, original, gaps, prune, g, s) && RoutePosition(s.route, gaps[g]).None?
    ensures !GapsFit(original, gaps)
  {
    hide RoutePosition, Run, Evolve, Neighbours;
    var picks: seq<seq<nat>> :| |picks| == g && Run(setting, original, gaps, picks) &&
        Evolve(original, gaps, picks) == Some(s.route);
    if GapsFit(original, gaps) {
      GapsStay(setting, original, gaps, picks);
      NeighboursAreFound(s.route, gaps[g]);
    }
  }

  lemma ReachedTheCount(setting: Setting, cfg: ExactConfig, original: seq<nat>, gaps: seq<Gap>, prune: bool,
                        states: seq<ExactState>)
    requires AllExact(setting, cfg, original, gaps, prune, |gaps|, states) && prune
    ensures forall s | s in states :: |s.route| == |original| + cfg.requested
  {
    hide ExactGood;
    forall s | s in states ensures |s.route| == |original| + cfg.requested {
      ExactSize(setting, cfg, original, gaps, prune, |gaps|, s);
    }
  }

  /** The states retained after `g` gaps. */
  ghost function ExactGeneration(setting: Setting, cfg: ExactConfig, original: seq<nat>, gaps: seq<Gap>,
                                 g: nat): seq<ExactState>
    requires setting.variationPercent <= 100 && g <= |gaps|
  {
    if g == 0 then [ExactState(original, cfg.objective(original))]
    else
      RetainExact(ExactExpansion(setting, cfg, original, gaps, cfg.requested <= StructuralUpperBound(gaps), g - 1,
                                 ExactGeneration(setting, cfg, original, gaps, g - 1)),
                  |original|, cfg.beamWidth, cfg.requested + 1)
  }

  /** Neither limit drops anything at gap `g`. */
  ghost predicate ExactGapUncut(setting: Setting, cfg: ExactConfig, original: seq<nat>, gaps: seq<Gap>, g: nat)
    requires setting.variationPercent <= 100 && g < |gaps|
  {
    var states := ExactGeneration(setting, cfg, original, gaps, g);
    && ExpansionUncut(setting, cfg, original, gaps, g, states)
    && ExactBeamUncut(ExactExpansion(setting, cfg, original, gaps, cfg.requested <= StructuralUpperBound(gaps), g,
                                     states),
                      |original|, cfg.beamWidth)
  }

  ghost predicate ExactUncutTo(setting: Setting, cfg: ExactConfig, original: seq<nat>, gaps: seq<Gap>, g: nat)
    requires setting.variationPercent <= 100 && g <= |gaps|
  {
    forall k | 0 <= k < g :: ExactGapUncut(setting, cfg, original, gaps, k)
  }

  lemma ExactUncutStep(setting: Setting, cfg: ExactConfig, original: seq<nat>, gaps: seq<Gap>, g: nat)
    requires setting.variationPercent <= 100 && g < |gaps|
    ensures ExactUncutTo(setting, cfg, original, gaps, g + 1) <==>
            ExactUncutTo(setting, cfg, original, gaps, g) && ExactGapUncut(setting, cfg, original, gaps, g)
  {
    hide ExactGapUncut;
  }

  lemma WithinGaps(gaps: seq<Gap>)
    ensures StructuralUpperBound(gaps) <= |gaps|
  {
  }

  /** Whatever the limits, the retained states are outcomes of runs; with room
      enough nothing is dropped. */
  lemma {:induction false} ExactGenerationGood(setting: Setting, cfg: ExactConfig, original: seq<nat>, gaps: seq<Gap>,
                                               g: nat)
    requires setting.variationPercent <= 100 && g <= |gaps|
    ensures AllExact(setting, cfg, original, gaps, cfg.requested <= StructuralUpperBound(gaps), g,
                     ExactGeneration(setting, cfg, original, gaps, g))
    ensures ExactRoomy(cfg, gaps) ==>
              ExactUncutTo(setting, cfg, original, gaps, g) &&
              |ExactGeneration(setting, cfg, original, gaps, g)| <= Power(MostChoices(gaps), g)
  {
    hide AllExact, RetainExact, ExactRoomy, ExactBeamUncut, ExpansionUncut, StructuralUpperBound, MostChoices, Power,
      ExactExpansion;
    WithinGaps(gaps);
    var prune := cfg.requested <= StructuralUpperBound(gaps);
    if g == 0 {
      StartExact(setting, cfg, original, gaps, prune);
      PowerZero(MostChoices(gaps));
    } else {
      var states := ExactGeneration(setting, cfg, original, gaps, g - 1);
      var expanded := ExactExpansion(setting, cfg, original, gaps, prune, g - 1, states);
      ExactGenerationGood(setting, cfg, original, gaps, g - 1);
      ExactExpansionGood(setting, cfg, original, gaps, prune, g - 1, states);
      RetainExactSound(setting, cfg, original, gaps, prune, g, expanded);
      RetainExactSize(expanded, |original|, cfg.beamWidth, cfg.requested + 1);
      if ExactRoomy(cfg, gaps) {
        ExactExpansionSize(setting, cfg, original, gaps, prune, g - 1, states);
        ExactFits(cfg, gaps, g - 1, |states|, |expanded|);
        SmallEnoughForExactBeam(expanded, |original|, cfg.beamWidth);
        ExactUncutStep(setting, cfg, original, gaps, g - 1);
      }
    }
  }

  lemma {:induction false} ExactGenerationCovers(setting: Setting, cfg: ExactConfig, original: seq<nat>,
                                                 gaps: seq<Gap>, g: nat)
    requires setting.variationPercent <= 100 && g <= |gaps| && ExactUncutTo(setting, cfg, original, gaps, g)
    ensures ExactCovers(setting, cfg, original, gaps, g, ExactGeneration(setting, cfg, original, gaps, g))
  {
    hide AllExact, RetainExact, ExactBeamUncut, ExpansionUncut, StructuralUpperBound, ExactCovers, ExactExpansion;
    WithinGaps(gaps);
    var prune := cfg.requested <= StructuralUpperBound(gaps);
    if g == 0 {
      StartExact(setting, cfg, original, gaps, prune);
    } else {
      var states := ExactGeneration(setting, cfg, original, gaps, g - 1);
      ExactUncutStep(setting, cfg, original, gaps, g - 1);
      ExactGenerationGood(setting, cfg, original, gaps, g - 1);
      ExactGenerationCovers(setting, cfg, original, gaps, g - 1);
      ExactExpansionGood(setting, cfg, original, gaps, prune, g - 1, states);
      ExactExpansionCovers(setting, cfg, original, gaps, prune, g - 1, states);
      RetainExactCovers(setting, cfg, original, gaps, prune, g,
                        ExactExpansion(setting, cfg, original, gaps, prune, g - 1, states));
    }
  }

  /** Some state retained before gap `g` no longer has its anchors side by side. */
  ghost predicate LosesGap(setting: Setting, cfg: ExactConfig, original: seq<nat>, gaps: seq<Gap>, g: nat)
    requires setting.variationPercent <= 100
  {
    g < |gaps| &&
    exists s :: s in ExactGeneration(setting, cfg, original, gaps, g) && RoutePosition(s.route, gaps[g]).None?
  }

  ghost predicate FirstLost(setting: Setting, cfg: ExactConfig, original: seq<nat>, gaps: seq<Gap>, g: nat)
    requires setting.variationPercent <= 100
  {
    LosesGap(setting, cfg, original, gaps, g) && forall h: nat | h < g :: !LosesGap(setting, cfg, original, gaps, h)
  }

  /** A search is refused exactly when a limit is zero, and otherwise given up
      exactly when a gap is lost, the first of which is named. */
  ghost predicate RefusedRightly(setting: Setting, cfg: ExactConfig, original: seq<nat>, gaps: seq<Gap>,
                                 result: ExactOutcome)
    requires setting.variationPercent <= 100
  {
    && (result.InvalidExactConfig? <==> cfg.candidateLimit == 0 || cfg.beamWidth == 0)
    && (result.GapLost? ==>
          exists g: nat :: FirstLost(setting, cfg, original, gaps, g) && result.position == gaps[g].originalPosition)
    && (!result.InvalidExactConfig? && !result.GapLost? ==>
          forall g: nat :: !LosesGap(setting, cfg, original, gaps, g))
  }

  /** Exact-count search.  `finals` are the states left after the last gap:
      inside the structural bound each of them has exactly the wanted count,
      whatever the beam width.  `cut` says exactly whether a limit dropped
      something. */
  method SelectExactCount(setting: Setting, cfg: ExactConfig, original: seq<nat>, gaps: seq<Gap>)
    returns (result: ExactOutcome, ghost finals: seq<ExactState>, ghost cut: bool)
    requires setting.variationPercent <= 100
    ensures RefusedRightly(setting, cfg, original, OrderedGaps(gaps), result)
    ensures result.Found? || result.NoneFound? ==>
              && finals == ExactGeneration(setting, cfg, original, OrderedGaps(gaps), |OrderedGaps(gaps)|)
              && (cut <==> !ExactUncutTo(setting, cfg, original, OrderedGaps(gaps), |OrderedGaps(gaps)|))
    ensures ExactAnswer(setting, cfg, original, OrderedGaps(gaps), cut, result)
    ensures ExactRoomy(cfg, OrderedGaps(gaps)) ==> !cut
    ensures ExactAnswer(setting, cfg, original, OrderedGaps(gaps), true, result)
    ensures ExactRoomy(cfg, OrderedGaps(gaps)) ==> ExactAnswer(setting, cfg, original, OrderedGaps(gaps), false, result)
    ensures cfg.requested <= StructuralUpperBound(OrderedGaps(gaps)) ==>
              forall s | s in finals :: |s.route| == |original| + cfg.requested
    ensures result.Found? ==> exists s :: s in finals && s.route == result.route
    ensures result.Found? ==>
              forall t | t in finals && |t.route| == |original| + cfg.requested ::
                NoWorse(cfg.objective(result.route), result.route, cfg.objective(t.route), t.route)
    ensures result.NoneFound? ==> forall t | t in finals :: |t.route| != |original| + cfg.requested
  {
    hide RoutePosition, ExactCovers, ExactRoomy, AllExact, RetainExact, SelectExact, ExactNext, CandidateSet, GapsFit,
      ExactTarget, ExactBeamUncut, ExpansionUncut, MostChoices, Power;
    finals, cut := [], false;
    if cfg.candidateLimit == 0 || cfg.beamWidth == 0 {
      return InvalidExactConfig, finals, cut;
    }
    var ordered := OrderedGaps(gaps);
    var prune := cfg.requested <= StructuralUpperBound(ordered);
    var states := [ExactState(original, cfg.objective(original))];
    ExactGenerationGood(setting, cfg, original, ordered, |ordered|);
    var g := 0;
    while g < |ordered|
      invariant 0 <= g <= |ordered|
      invariant states == ExactGeneration(setting, cfg, original, ordered, g)
      invariant cut <==> !ExactUncutTo(setting, cfg, original, ordered, g)
      invariant forall h: nat | h < g :: !LosesGap(setting, cfg, original, ordered, h)
    {
      ExactGenerationGood(setting, cfg, original, ordered, g);
      var lost, expanded;
      ghost var cutHere;
      lost, expanded, cutHere := ExpandExact(setting, cfg, original, ordered, prune, g, states);
      if lost {
        ghost var s :| s in states && RoutePosition(s.route, ordered[g]).None?;
        AllExactMember(setting, cfg, original, ordered, prune, g, states, s);
        LostMeansUnfit(setting, cfg, original, ordered, prune, g, s);
        assert FirstLost(setting, cfg, original, ordered, g);
        return GapLost(ordered[g].originalPosition), finals, false;
      }
      assert !LosesGap(setting, cfg, original, ordered, g);
      ExactUncutStep(setting, cfg, original, ordered, g);
      cut := cut || cutHere || !ExactBeamUncut(expanded, |original|, cfg.beamWidth);
      states := RetainExact(expanded, |original|, cfg.beamWidth, cfg.requested + 1);
      g := g + 1;
    }
    finals := states;
    if !cut {
      ExactGenerationCovers(setting, cfg, original, ordered, |ordered|);
    }
    if prune {
      ReachedTheCount(setting, cfg, original, ordered, prune, states);
    }
    var selected := SelectExact(states, |original| + cfg.requested);
    if selected.None? {
      SelectExactIsBest(states, |original| + cfg.requested);
      ExactNotFound(setting, cfg, original, ordered, prune, cut, states);
      return NoneFound, finals, cut;
    }
    SelectExactIsBest(states, |original| + cfg.requested);
    forall t | t in states ensures t.objective == cfg.objective(t.route) {
      AllExactMember(setting, cfg, original, ordered, prune, |ordered|, states, t);
      ExactSize(setting, cfg, original, ordered, prune, |ordered|, t);
    }
    ExactFound(setting, cfg, original, ordered, prune, cut, states, selected.value);
    return Found(selected.value), finals, cut;
  }

  lemma AllExactMember(setting: Setting, cfg: ExactConfig, original: seq<nat>, gaps: seq<Gap>, prune: bool, g: nat,
                       states: seq<ExactState>, s: ExactState)
    requires g <= |gaps| && AllExact(setting, cfg, original, gaps, prune, g, states) && s in states
    ensures ExactGood(setting, cfg, original, gaps, prune, g, s)
  {
  }
}
