/** Global planning across all source gaps: states grow gap by gap, are cut to
    a beam, and the survivors face one final proof. */
module MultiGap {
  import opened Wrappers
  import opened Repeats
  import opened RepeatSpacing
  import opened Ordering
  import opened AnchoredPath
  import opened AnchoredSearch
  import opened GapPlans

  datatype AdditionPolicy = ExactPerGap(count: nat) | MinimumTotal(maximum: nat)

  datatype GlobalState = GlobalState(
    route: seq<nat>, picks: seq<seq<nat>>, added: nat, sum: real, worst: real, guidance: real)

  datatype PlanError =
    | InvalidConfig
    | InvalidSource
    | InvalidIndex(index: nat)
    | NoCompleteRoute(blockingGap: nat)
    | FinalRouteInvalid
    | PathFailed(error: PathError)

  datatype PlanResult = Planned(plan: GlobalState) | Failed(error: PlanError)

  function StateKey(policy: AdditionPolicy, s: GlobalState): Key {
    Key(if policy.MinimumTotal? then s.added else 0, s.worst, s.sum, s.guidance, s.route)
  }

  ghost function PlanKey(q: Problem, policy: AdditionPolicy, picks: seq<seq<nat>>): Key
    requires |picks| <= |q.gaps| && |picks| < |q.source|
  {
    var legs := PlanCost(q, picks);
    var cost := if legs.Some? then legs.value else Cost(0.0, 0.0);
    Key(if policy.MinimumTotal? then |Flatten(picks)| else 0,
        cost.worst, cost.sum, PlanGuidance(q, picks), Assemble(q.source, picks))
  }

  ghost predicate Within(policy: AdditionPolicy, picks: seq<seq<nat>>) {
    match policy
    case ExactPerGap(count) => forall g | 0 <= g < |picks| :: |picks[g]| == count
    case MinimumTotal(maximum) => |Flatten(picks)| <= maximum
  }

  /** What every retained state owes after `g` gaps. */
  ghost predicate GoodState(q: Problem, policy: AdditionPolicy, g: nat, s: GlobalState) {
    && GoodPrefix(q, s.picks) && |s.picks| == g
    && Within(policy, s.picks)
    && s.route == Assemble(q.source, s.picks)
    && s.added == |Flatten(s.picks)|
    && StateKey(policy, s) == PlanKey(q, policy, s.picks)
  }

  ghost predicate AllGoodStates(q: Problem, policy: AdditionPolicy, g: nat, states: seq<GlobalState>) {
    forall s | s in states :: GoodState(q, policy, g, s)
  }

  ghost predicate HasPicks(states: seq<GlobalState>, picks: seq<seq<nat>>) {
    exists s :: s in states && s.picks == picks
  }

  /** A complete insertion that the policy admits, head conflict aside. */
  ghost predicate Target(q: Problem, policy: AdditionPolicy, picks: seq<seq<nat>>) {
    GoodPrefix(q, picks) && |picks| == |q.gaps| && Within(policy, picks)
  }

  /** Every admissible insertion still has its first `g` gaps among the states. */
  ghost predicate Covers(q: Problem, policy: AdditionPolicy, g: nat, states: seq<GlobalState>)
    requires g <= |q.gaps|
  {
    forall picks: seq<seq<nat>> | Target(q, policy, picks) :: HasPicks(states, picks[..g])
  }

  // ----- one state, one gap -----

  function Cap(policy: AdditionPolicy, added: nat, minimumAfter: nat): nat {
    match policy
    case ExactPerGap(count) => count
    case MinimumTotal(maximum) => Minus(Minus(maximum, added), minimumAfter)
  }

  /** A number of additions is searched for exactly when it is none, or leaves
      the reserve of the later gaps inside the total. */
  lemma CapReserves(maximum: nat, added: nat, minimumAfter: nat, n: nat)
    ensures n <= Cap(MinimumTotal(maximum), added, minimumAfter) <==>
            n == 0 || added + n + minimumAfter <= maximum
  {
  }

  predicate Keeps(policy: AdditionPolicy, s: GlobalState, o: PathOption) {
    match policy
    case ExactPerGap(count) => |o.intermediates| == count
    case MinimumTotal(maximum) => s.added + |o.intermediates| <= maximum
  }

  function Advance(s: GlobalState, o: PathOption): GlobalState {
    GlobalState(o.route, s.picks + [o.intermediates], s.added + |o.intermediates|,
                s.sum + o.sum, MaxReal(s.worst, o.worst), s.guidance + o.guidance)
  }

  function AdvanceAll(policy: AdditionPolicy, s: GlobalState, options: seq<PathOption>): (v: seq<GlobalState>)
    ensures |v| <= |options|
  {
    if options == [] then []
    else
      var rest := AdvanceAll(policy, s, options[1..]);
      if Keeps(policy, s, options[0]) then [Advance(s, options[0])] + rest else rest
  }

  lemma {:induction false} AdvanceAllMembers(policy: AdditionPolicy, s: GlobalState, options: seq<PathOption>)
    ensures forall next :: next in AdvanceAll(policy, s, options) ==>
              exists o :: o in options && Keeps(policy, s, o) && next == Advance(s, o)
    ensures forall o :: o in options && Keeps(policy, s, o) ==> Advance(s, o) in AdvanceAll(policy, s, options)
  {
    if options != [] {
      AdvanceAllMembers(policy, s, options[1..]);
      assert options == [options[0]] + options[1..];
    }
  }

  lemma {:induction false} GuidanceIgnoresBudget(q: Problem, route: seq<nat>, g: nat, a: nat, b: nat, xs: seq<nat>)
    requires g < |q.gaps|
    ensures GuidanceSum(GapRequest(q, route, g, a), xs) == GuidanceSum(GapRequest(q, route, g, b), xs)
  {
    if xs != [] {
      GuidanceIgnoresBudget(q, route, g, a, b, xs[..|xs| - 1]);
    }
  }

  lemma FlattenStep(picks: seq<seq<nat>>, pick: seq<nat>)
    ensures Flatten(picks + [pick]) == Flatten(picks) + pick
  {
    assert (picks + [pick])[..|picks|] == picks;
  }

  lemma PlanGuidanceStep(q: Problem, picks: seq<seq<nat>>, pick: seq<nat>, budget: nat)
    requires WellFormed(q) && |picks| < |q.gaps|
    ensures PlanGuidance(q, picks + [pick]) ==
            PlanGuidance(q, picks) + GuidanceSum(GapRequest(q, Assemble(q.source, picks), |picks|, budget), pick)
  {
    hide GapRequest, Assemble, GuidanceSum;
    assert (picks + [pick])[..|picks|] == picks;
    GuidanceIgnoresBudget(q, Assemble(q.source, picks), |picks|, 0, budget, pick);
  }

  lemma PlanKeyStep(q: Problem, policy: AdditionPolicy, picks: seq<seq<nat>>, o: PathOption, budget: nat)
    requires GoodPrefix(q, picks) && |picks| < |q.gaps|
    requires GoodOption(GapRequest(q, Assemble(q.source, picks), |picks|, budget), 0, o)
    ensures var more, before := picks + [o.intermediates], PlanKey(q, policy, picks);
            && PlanKey(q, policy, more).sum == before.sum + o.sum
            && PlanKey(q, policy, more).worst == MaxReal(before.worst, o.worst)
            && PlanKey(q, policy, more).guidance == before.guidance + o.guidance
            && PlanKey(q, policy, more).path == o.route
  {
    hide GuidanceSum, PlanGuidance, WalkCost, PlanCost, Assemble, Eligible, SafeFrom, GeneratedSafe, RightAnchorSafe,
      AvailableTracks;
    PlanGuidanceStep(q, picks, o.intermediates, budget);
    CostStep(q, picks, o.intermediates);
    RouteGrows(q, picks, o.intermediates, budget);
  }

  lemma WithinStep(policy: AdditionPolicy, s: GlobalState, o: PathOption)
    requires Within(policy, s.picks) && s.added == |Flatten(s.picks)| && Keeps(policy, s, o)
    ensures Within(policy, s.picks + [o.intermediates])
  {
    FlattenStep(s.picks, o.intermediates);
  }

  lemma AdvanceSound(q: Problem, policy: AdditionPolicy, g: nat, s: GlobalState, o: PathOption, budget: nat)
    requires g < |q.gaps| && GoodState(q, policy, g, s) && Keeps(policy, s, o)
    requires GoodOption(GapRequest(q, s.route, g, budget), 0, o)
    ensures GoodState(q, policy, g + 1, Advance(s, o))
  {
    hide Flatten, Within, PlanKey, Assemble, GoodPrefix, Feasible, Keeps;
    var pick := o.intermediates;
    GoodPrefixSize(q, s.picks);
    GoodPrefixStep(q, s.picks, pick, budget);
    GoodPrefixSize(q, s.picks + [pick]);
    WithinStep(policy, s, o);
    FlattenStep(s.picks, pick);
    PlanKeyStep(q, policy, s.picks, o, budget);
    RouteGrows(q, s.picks, pick, budget);
    PlanKeyRank(q, policy, s.picks + [pick]);
  }

  lemma PlanKeyRank(q: Problem, policy: AdditionPolicy, picks: seq<seq<nat>>)
    requires |picks| <= |q.gaps| && |picks| < |q.source|
    ensures PlanKey(q, policy, picks).rank == if policy.MinimumTotal? then |Flatten(picks)| else 0
  {
  }

  // ----- request checks -----

  function AllCandidates(gaps: seq<Gap>): seq<nat> {
    if gaps == [] then [] else CandidateTracks(gaps[0].candidates) + AllCandidates(gaps[1..])
  }

  predicate AnchorsFollowSource(q: Problem)
    requires |q.gaps| + 1 == |q.source|
  {
    forall g {:trigger q.gaps[g]} | 0 <= g < |q.gaps| ::
      q.gaps[g].left == q.source[g] && q.gaps[g].right == q.source[g + 1]
  }

  /** The request checks, in order; `configValid` is the one check in which
      the two kinds of request differ. */
  function ValidateProblem(q: Problem, configValid: bool): Option<PlanError> {
    if |q.source| < 2 || |q.gaps| != |q.source| - 1 then Some(InvalidSource)
    else if !configValid then Some(InvalidConfig)
    else if q.limits.candidateLimit == 0 || q.limits.beamWidth == 0 || q.limits.alternativesPerGap == 0 then
        Some(InvalidConfig)
    else if q.limits.variationPercent > 100 then Some(InvalidConfig)
    else if !AnchorsFollowSource(q) then Some(InvalidSource)
    else match FirstInvalid(q.policy, q.source + q.history + AllCandidates(q.gaps))
      case Some(index) => Some(InvalidIndex(index))
      case None => None
  }

  ghost predicate ValidProblem(q: Problem) {
    && WellFormed(q)
    && q.limits.candidateLimit > 0 && q.limits.beamWidth > 0 && q.limits.alternativesPerGap > 0
    && q.limits.variationPercent <= 100
    && ValidIndices(q.policy, q.source) && ValidIndices(q.policy, q.history)
    && ValidIndices(q.policy, AllCandidates(q.gaps))
  }

  // ----- what a caller can read off the request -----

  /** There is a gap between every two neighbouring source tracks, and at least one. */
  ghost predicate GapsMatchSource(q: Problem) {
    |q.source| > 1 && |q.source| == |q.gaps| + 1
  }

  ghost predicate LimitsHold(limits: Limits) {
    && limits.candidateLimit >= 1 && limits.beamWidth >= 1 && limits.alternativesPerGap >= 1
    && limits.variationPercent <= 100
  }

  ghost predicate CandidatesKnown(p: Policy, gap: Gap) {
    forall k | 0 <= k < |gap.candidates| :: gap.candidates[k].track < |p.tracks|
  }

  /** Every source track, history track and candidate is in the library. */
  ghost predicate TracksKnown(q: Problem) {
    && (forall i | 0 <= i < |q.source| :: q.source[i] < |q.policy.tracks|)
    && (forall i | 0 <= i < |q.history| :: q.history[i] < |q.policy.tracks|)
    && forall g | 0 <= g < |q.gaps| :: CandidatesKnown(q.policy, q.gaps[g])
  }

  /** Candidate `k` of gap `g` is unknown and all before it are known. */
  ghost predicate UnknownAt(p: Policy, gaps: seq<Gap>, g: nat, k: nat) {
    && g < |gaps| && k < |gaps[g].candidates| && gaps[g].candidates[k].track >= |p.tracks|
    && (forall h | 0 <= h < g :: CandidatesKnown(p, gaps[h]))
    && forall j | 0 <= j < k :: gaps[g].candidates[j].track < |p.tracks|
  }

  /** The first unknown track, looking at source, then history, then the
      candidates gap by gap. */
  ghost predicate FirstUnknown(q: Problem, x: nat) {
    if !ValidIndices(q.policy, q.source) then FirstUnknownIn(q.policy, q.source, x)
    else if !ValidIndices(q.policy, q.history) then FirstUnknownIn(q.policy, q.history, x)
    else exists g: nat, k: nat :: UnknownAt(q.policy, q.gaps, g, k) && q.gaps[g].candidates[k].track == x
  }

  lemma CandidatesKnownMeaning(p: Policy, gap: Gap)
    ensures ValidIndices(p, CandidateTracks(gap.candidates)) <==> CandidatesKnown(p, gap)
  {
    var tracks := CandidateTracks(gap.candidates);
    if ValidIndices(p, tracks) {
      forall k | 0 <= k < |gap.candidates| ensures gap.candidates[k].track < |p.tracks| {
        assert tracks[k] == gap.candidates[k].track;
      }
    }
  }

  lemma {:induction false} AllCandidatesKnown(p: Policy, gaps: seq<Gap>)
    ensures ValidIndices(p, AllCandidates(gaps)) <==> forall g | 0 <= g < |gaps| :: CandidatesKnown(p, gaps[g])
  {
    if gaps != [] {
      hide ValidIndices, CandidatesKnown;
      AllCandidatesKnown(p, gaps[1..]);
      CandidatesKnownMeaning(p, gaps[0]);
      ValidIndicesJoin(p, CandidateTracks(gaps[0].candidates), AllCandidates(gaps[1..]));
      assert forall g | 0 < g < |gaps| :: gaps[g] == gaps[1..][g - 1];
      assert forall g | 0 <= g < |gaps[1..]| :: gaps[1..][g] == gaps[g + 1];
    }
  }

  lemma {:induction false} FirstUnknownCandidate(p: Policy, gaps: seq<Gap>, x: nat) returns (g: nat, k: nat)
    requires FirstUnknownIn(p, AllCandidates(gaps), x)
    ensures UnknownAt(p, gaps, g, k) && gaps[g].candidates[k].track == x
  {
    assert gaps != [];
    var first := CandidateTracks(gaps[0].candidates);
    FirstUnknownJoin(p, first, AllCandidates(gaps[1..]), x);
    CandidatesKnownMeaning(p, gaps[0]);
    if ValidIndices(p, first) {
      g, k := FirstUnknownCandidate(p, gaps[1..], x);
      g := g + 1;
      assert forall h | 0 < h < |gaps| :: gaps[h] == gaps[1..][h - 1];
    } else {
      var i :| 0 <= i < |first| && first[i] == x >= |p.tracks| && ValidIndices(p, first[..i]);
      g, k := 0, i;
      forall j | 0 <= j < i ensures gaps[0].candidates[j].track < |p.tracks| {
        assert first[..i][j] < |p.tracks|;
      }
    }
  }

  lemma UnknownIsFirst(q: Problem)
    requires FirstInvalid(q.policy, q.source + q.history + AllCandidates(q.gaps)).Some?
    ensures FirstUnknown(q, FirstInvalid(q.policy, q.source + q.history + AllCandidates(q.gaps)).value)
  {
    hide ValidIndices, AllCandidates, UnknownAt;
    var p := q.policy;
    var x := FirstInvalid(p, q.source + q.history + AllCandidates(q.gaps)).value;
    assert FirstUnknownIn(p, q.source + q.history + AllCandidates(q.gaps), x);
    hide FirstUnknownIn;
    FirstUnknownJoin(p, q.source + q.history, AllCandidates(q.gaps), x);
    ValidIndicesJoin(p, q.source, q.history);
    if ValidIndices(p, q.source + q.history) {
      var g, k := FirstUnknownCandidate(p, q.gaps, x);
    } else {
      FirstUnknownJoin(p, q.source, q.history, x);
    }
  }

  lemma KnownIsValid(q: Problem)
    ensures TracksKnown(q) <==> FirstInvalid(q.policy, q.source + q.history + AllCandidates(q.gaps)).None?
    ensures TracksKnown(q) <==> ValidIndices(q.policy, q.source) && ValidIndices(q.policy, q.history) &&
                                ValidIndices(q.policy, AllCandidates(q.gaps))
  {
    hide CandidatesKnown, AllCandidates, FirstInvalid;
    AllCandidatesKnown(q.policy, q.gaps);
    ValidIndicesJoin(q.policy, q.source + q.history, AllCandidates(q.gaps));
    ValidIndicesJoin(q.policy, q.source, q.history);
  }

  /** Which request is refused, and with which error, by its own properties:
      nothing else is refused. */
  lemma ValidationDecides(q: Problem, configValid: bool)
    ensures var refusal := ValidateProblem(q, configValid);
            && (refusal.None? <==> configValid && ValidProblem(q))
            && (refusal.None? <==> configValid && LimitsHold(q.limits) && WellFormed(q) && TracksKnown(q))
            && (refusal == Some(InvalidSource) <==>
                  !GapsMatchSource(q) || (configValid && LimitsHold(q.limits) && !WellFormed(q)))
            && (refusal == Some(InvalidConfig) <==> GapsMatchSource(q) && !(configValid && LimitsHold(q.limits)))
            && (refusal.Some? && refusal.value.InvalidIndex? <==>
                  configValid && LimitsHold(q.limits) && WellFormed(q) && !TracksKnown(q))
            && (refusal.Some? && refusal.value.InvalidIndex? ==> FirstUnknown(q, refusal.value.index))
            && (refusal.None? || refusal.value.InvalidSource? || refusal.value.InvalidConfig? ||
                refusal.value.InvalidIndex?)
  {
    hide FirstInvalid, ValidIndices, AllCandidates, TracksKnown, FirstUnknown;
    KnownIsValid(q);
    if FirstInvalid(q.policy, q.source + q.history + AllCandidates(q.gaps)).Some? {
      UnknownIsFirst(q);
    }
  }

  /** The refusals of both requests, as a caller meets them. */
  ghost predicate RefusedRightly(q: Problem, configValid: bool, result: PlanResult) {
    && (result == Failed(InvalidSource) <==>
          !GapsMatchSource(q) || (configValid && LimitsHold(q.limits) && !WellFormed(q)))
    && (result == Failed(InvalidConfig) <==> GapsMatchSource(q) && !(configValid && LimitsHold(q.limits)))
    && (result.Failed? && result.error.InvalidIndex? <==>
          configValid && LimitsHold(q.limits) && WellFormed(q) && !TracksKnown(q))
    && (result.Failed? && result.error.InvalidIndex? ==> FirstUnknown(q, result.error.index))
  }

  lemma {:induction false} GapCandidatesValid(p: Policy, gaps: seq<Gap>, g: nat)
    requires g < |gaps| && ValidIndices(p, AllCandidates(gaps))
    ensures ValidIndices(p, CandidateTracks(gaps[g].candidates))
  {
    ValidIndicesJoin(p, CandidateTracks(gaps[0].candidates), AllCandidates(gaps[1..]));
    if g > 0 {
      GapCandidatesValid(p, gaps[1..], g - 1);
    }
  }

  lemma PickValid(p: Policy, gap: Gap, pick: seq<nat>)
    requires NamedByGap(gap, pick) && ValidIndices(p, CandidateTracks(gap.candidates))
    ensures ValidIndices(p, pick)
  {
    var tracks := CandidateTracks(gap.candidates);
    forall i | 0 <= i < |pick| ensures pick[i] < |p.tracks| {
      var k :| 0 <= k < |gap.candidates| && gap.candidates[k].track == pick[i];
      assert tracks[k] == pick[i];
    }
  }

  lemma {:induction false} RouteValid(q: Problem, picks: seq<seq<nat>>)
    requires ValidProblem(q) && |picks| <= |q.gaps|
    requires forall g | 0 <= g < |picks| :: NamedByGap(q.gaps[g], picks[g])
    ensures ValidIndices(q.policy, Assemble(q.source, picks))
  {
    hide NamedByGap, AllCandidates;
    if picks != [] {
      var n := |picks| - 1;
      RouteValid(q, picks[..n]);
      GapCandidatesValid(q.policy, q.gaps, n);
      PickValid(q.policy, q.gaps[n], picks[n]);
      ValidIndicesJoin(q.policy, Assemble(q.source, picks[..n]), picks[n]);
      ValidIndicesJoin(q.policy, Assemble(q.source, picks[..n]) + picks[n], [q.source[n + 1]]);
    }
  }

  /** A gap search is turned away for one reason only: equal neighbouring anchors. */
  lemma GapRequestValid(q: Problem, picks: seq<seq<nat>>, budget: nat)
    requires ValidProblem(q) && GoodPrefix(q, picks) && |picks| < |q.gaps|
    ensures var r := GapRequest(q, Assemble(q.source, picks), |picks|, budget);
            Validate(r) == if r.leftAnchor == r.rightAnchor then Some(AnchorsMustDiffer) else None
  {
    hide PlanCost, SafeFrom, NamedByGap, AllCandidates, FirstInvalid, ValidIndices, Assemble, Distinct, Avoids;
    var route, g := Assemble(q.source, picks), |picks|;
    var r := GapRequest(q, route, g, budget);
    RouteValid(q, picks);
    GapCandidatesValid(q.policy, q.gaps, g);
    ValidIndicesJoin(q.policy, q.source, route);
    PairValid(q, g);
    ValidIndicesJoin(q.policy, route, q.history);
    ValidIndicesJoin(q.policy, route + q.history, q.source + route);
    ValidIndicesJoin(q.policy, route + q.history + (q.source + route), [r.leftAnchor, r.rightAnchor]);
    ValidIndicesJoin(q.policy, route + q.history + (q.source + route) + [r.leftAnchor, r.rightAnchor],
                     CandidateTracks(r.candidates));
  }

  lemma PairValid(q: Problem, g: nat)
    requires ValidProblem(q) && g < |q.gaps|
    ensures ValidIndices(q.policy, [q.gaps[g].left, q.gaps[g].right])
  {
  }

  // ----- room enough for no limit to bind -----

  function MostCandidates(gaps: seq<Gap>): (n: nat)
    ensures forall g | 0 <= g < |gaps| :: |gaps[g].candidates| <= n
  {
    if gaps == [] then 0
    else
      assert forall g | 0 < g < |gaps| :: gaps[g] == gaps[1..][g - 1];
      Max(|gaps[0].candidates|, MostCandidates(gaps[1..]))
  }

  /** Limits that a caller can compare in advance: they cover every sequence
      of `most` candidates in every gap. */
  ghost predicate Roomy(q: Problem, most: nat) {
    var widest := MostCandidates(q.gaps);
    && q.limits.candidateLimit >= widest
    && q.limits.alternativesPerGap >= Power(widest, most)
    && q.limits.beamWidth >= Power(Geometric(widest, most), |q.gaps|)
  }

  lemma {:induction false} PowerMonotone(a: nat, b: nat, j: nat, k: nat)
    requires a <= b && j <= k && b > 0
    ensures Power(a, j) <= Power(b, k)
  {
    PowerGrows(b, j, k);
    PowerBase(a, b, j);
  }

  lemma {:induction false} PowerBase(a: nat, b: nat, k: nat)
    requires a <= b
    ensures Power(a, k) <= Power(b, k)
  {
    if k > 0 {
      PowerBase(a, b, k - 1);
      MulMonotone(a, b, Power(a, k - 1), Power(b, k - 1));
    }
  }

  lemma {:induction false} GeometricMonotone(a: nat, b: nat, j: nat, k: nat)
    requires a <= b && j <= k
    ensures Geometric(a, j) <= Geometric(b, k)
  {
    GeometricGrows(b, j, k);
    GeometricBase(a, b, j);
  }

  lemma {:induction false} GeometricBase(a: nat, b: nat, k: nat)
    requires a <= b
    ensures Geometric(a, k) <= Geometric(b, k)
  {
    if k > 0 {
      GeometricBase(a, b, k - 1);
      PowerBase(a, b, k);
    }
  }

  lemma {:induction false} GeometricHoldsPower(base: nat, k: nat)
    ensures Power(base, k) <= Geometric(base, k) && 1 <= Geometric(base, k)
  {
    if k > 0 {
      GeometricHoldsPower(base, k - 1);
    }
  }

  lemma RoomyBeam(q: Problem, most: nat, g: nat)
    requires Roomy(q, most) && g <= |q.gaps|
    ensures Power(Geometric(MostCandidates(q.gaps), most), g) <= q.limits.beamWidth
  {
    GeometricHoldsPower(MostCandidates(q.gaps), most);
    PowerGrows(Geometric(MostCandidates(q.gaps), most), g, |q.gaps|);
  }

  lemma RoomyPower(q: Problem, most: nat, avail: nat, n: nat)
    requires Roomy(q, most) && |q.gaps| > 0 && q.limits.alternativesPerGap > 0
    requires avail <= MostCandidates(q.gaps) && n <= most && n <= avail
    ensures Power(avail, n) <= q.limits.alternativesPerGap && Power(avail, n) <= q.limits.beamWidth
  {
    var widest := MostCandidates(q.gaps);
    RoomyBeam(q, most, 1);
    assert Power(Geometric(widest, most), 1) == Geometric(widest, most) by {
      assert Power(Geometric(widest, most), 0) == 1;
    }
    GeometricHoldsPower(widest, most);
    if avail == 0 {
      assert Power(avail, n) == 1;
    } else {
      PowerMonotone(avail, widest, n, most);
    }
  }

  lemma RoomySearch(q: Problem, most: nat, route: seq<nat>, g: nat, budget: nat)
    requires ValidProblem(q) && Roomy(q, most) && g < |q.gaps| && budget <= most
    ensures NonBinding(GapRequest(q, route, g, budget))
    ensures var r := GapRequest(q, route, g, budget);
            r.config.alternativesPerCount >= Power(|Available(r)|, StructuralBound(r))
    ensures Geometric(|Available(GapRequest(q, route, g, budget))|, StructuralBound(GapRequest(q, route, g, budget)))
            <= Geometric(MostCandidates(q.gaps), most)
  {
    hide AvailableTracks, Roomy, MostCandidates;
    var r := GapRequest(q, route, g, budget);
    assert |Available(r)| <= |q.gaps[g].candidates| <= MostCandidates(q.gaps);
    RoomyPower(q, most, |Available(r)|, StructuralBound(r));
    GeometricMonotone(|Available(r)|, MostCandidates(q.gaps), StructuralBound(r), most);
    RoomyCandidates(q, most);
  }

  lemma RoomyCandidates(q: Problem, most: nat)
    requires Roomy(q, most)
    ensures MostCandidates(q.gaps) <= q.limits.candidateLimit
  {
  }

  // ----- all states, one gap -----

  /** An admissible insertion that passes through `picks` is picked up here. */
  ghost predicate Carries(q: Problem, policy: AdditionPolicy, s: GlobalState, next: seq<GlobalState>)
    requires |s.picks| < |q.gaps|
  {
    forall picks: seq<seq<nat>> | Target(q, policy, picks) && picks[..|s.picks|] == s.picks ::
      HasPicks(next, picks[..|s.picks| + 1])
  }

  ghost function Most(policy: AdditionPolicy): nat {
    match policy
    case ExactPerGap(count) => count
    case MinimumTotal(maximum) => maximum
  }

  lemma TargetFitsCap(q: Problem, policy: AdditionPolicy, g: nat, s: GlobalState, minimumAfter: nat,
                      picks: seq<seq<nat>>)
    requires g < |q.gaps| && GoodState(q, policy, g, s)
    requires Target(q, policy, picks) && picks[..g] == s.picks
    requires policy.MinimumTotal? ==>
               forall additions: seq<nat> | Separates(q.policy, q.source[g + 1..], additions) ::
                 minimumAfter <= Total(additions)
    ensures |picks[g]| <= Cap(policy, s.added, minimumAfter)
    ensures policy.ExactPerGap? ==> |picks[g]| == policy.count
    ensures policy.MinimumTotal? ==> s.added + |picks[g]| <= policy.maximum
  {
    hide GoodPrefix, Separates, Assemble, PlanKey;
    GoodPrefixSize(q, picks);
    if policy.MinimumTotal? {
      LaterGapsPay(q, picks, g, minimumAfter);
    }
  }

  lemma ExpandedIsSound(q: Problem, policy: AdditionPolicy, g: nat, s: GlobalState, budget: nat,
                        options: seq<PathOption>)
    requires g < |q.gaps| && GoodState(q, policy, g, s)
    requires AllGood(GapRequest(q, s.route, g, budget), 0, options)
    ensures AllGoodStates(q, policy, g + 1, AdvanceAll(policy, s, options))
  {
    hide GoodState, GoodOption, Keeps, Advance;
    AdvanceAllMembers(policy, s, options);
    forall next | next in AdvanceAll(policy, s, options) ensures GoodState(q, policy, g + 1, next) {
      var o :| o in options && Keeps(policy, s, o) && next == Advance(s, o);
      AdvanceSound(q, policy, g, s, o, budget);
    }
  }

  lemma ExpandedCarries(q: Problem, policy: AdditionPolicy, g: nat, s: GlobalState, minimumAfter: nat,
                        options: seq<PathOption>)
    requires g < |q.gaps| && GoodState(q, policy, g, s)
    requires policy.MinimumTotal? ==>
               forall additions: seq<nat> | Separates(q.policy, q.source[g + 1..], additions) ::
                 minimumAfter <= Total(additions)
    requires var r := GapRequest(q, s.route, g, Cap(policy, s.added, minimumAfter));
             forall xs: seq<nat> | |xs| <= r.config.maxIntermediates && Feasible(r, 0, xs) &&
                                   (policy.ExactPerGap? ==> |xs| == policy.count) ::
               HasOption(options, xs)
    ensures Carries(q, policy, s, AdvanceAll(policy, s, options))
  {
    hide GoodPrefix, Separates, Assemble, PlanKey, Feasible, OptionsAnswer, Roomy, Within, Flatten;
    var cap := Cap(policy, s.added, minimumAfter);
    var r := GapRequest(q, s.route, g, cap);
    AdvanceAllMembers(policy, s, options);
    forall picks: seq<seq<nat>> | Target(q, policy, picks) && picks[..g] == s.picks
      ensures HasPicks(AdvanceAll(policy, s, options), picks[..g + 1])
    {
      TargetFitsCap(q, policy, g, s, minimumAfter, picks);
      GoodPrefixSize(q, picks);
      GoodPrefixShrinks(q, picks, g + 1);
      assert picks[..g + 1] == s.picks + [picks[g]];
      GoodPrefixStep(q, s.picks, picks[g], cap);
      assert Feasible(r, 0, picks[g]);
      var o :| o in options && o.intermediates == picks[g];
      assert Keeps(policy, s, o) && Advance(s, o) in AdvanceAll(policy, s, options);
    }
  }

  /** What the planner asks the path search for one state. */
  ghost function StateRequest(q: Problem, policy: AdditionPolicy, g: nat, s: GlobalState): Request
    requires WellFormed(q) && g < |q.gaps|
  {
    GapRequest(q, s.route, g, Cap(policy, s.added, Reserve(q, policy, g)))
  }

  /** Additions kept back for the gaps after `g`. */
  ghost function Reserve(q: Problem, policy: AdditionPolicy, g: nat): nat
    requires WellFormed(q) && g < |q.gaps|
  {
    if policy.MinimumTotal? then LeastAdditions(q.policy, q.source[g + 1..]) else 0
  }

  /** The successors of one state. */
  ghost function StateNext(q: Problem, policy: AdditionPolicy, g: nat, s: GlobalState): seq<GlobalState>
    requires WellFormed(q) && g < |q.gaps|
  {
    match SearchOf(StateRequest(q, policy, g, s), 0)
    case Rejected(_) => []
    case Found(options) => AdvanceAll(policy, s, options)
  }

  /** No limit of the path search drops a path, partial or complete, of a count
      that the policy can use. */
  ghost predicate StateUncut(q: Problem, policy: AdditionPolicy, g: nat, s: GlobalState)
    requires WellFormed(q) && g < |q.gaps|
  {
    var r := StateRequest(q, policy, g, s);
    match policy
    case ExactPerGap(count) => CountComplete(r, 0, count)
    case MinimumTotal(_) => SearchUncut(r, 0) && !SearchTrimmed(r, 0)
  }

  lemma ReserveIsLower(q: Problem, policy: AdditionPolicy, g: nat)
    requires WellFormed(q) && g < |q.gaps| && policy.MinimumTotal?
    ensures forall additions: seq<nat> | Separates(q.policy, q.source[g + 1..], additions) ::
              Reserve(q, policy, g) <= Total(additions)
  {
    hide Separates;
  }

  lemma StateRejected(q: Problem, policy: AdditionPolicy, g: nat, s: GlobalState)
    requires ValidProblem(q) && g < |q.gaps| && GoodState(q, policy, g, s)
    ensures var r := StateRequest(q, policy, g, s);
            Validate(r) == if q.gaps[g].left == q.gaps[g].right then Some(AnchorsMustDiffer) else None
  {
    hide GoodPrefix, Within, PlanKey, Validate, Reserve, Assemble, Flatten;
    GapRequestValid(q, s.picks, Cap(policy, s.added, Reserve(q, policy, g)));
  }

  /** Whatever the limits the successors are good; uncut, they carry on every
      admissible insertion that passes through the state. */
  lemma StateNextIsGood(q: Problem, policy: AdditionPolicy, g: nat, s: GlobalState)
    requires ValidProblem(q) && g < |q.gaps| && GoodState(q, policy, g, s)
    ensures AllGoodStates(q, policy, g + 1, StateNext(q, policy, g, s))
    ensures q.gaps[g].left != q.gaps[g].right && StateUncut(q, policy, g, s) ==>
              Carries(q, policy, s, StateNext(q, policy, g, s))
    ensures Roomy(q, Most(policy)) ==>
              StateUncut(q, policy, g, s) &&
              |StateNext(q, policy, g, s)| <= Geometric(MostCandidates(q.gaps), Most(policy))
  {
    hide GoodPrefix, Separates, Assemble, PlanKey, Feasible, OptionsAnswer, Roomy, Within, Flatten, Carries,
      NonBinding, AllGood, Geometric, Validate, StructuralBound, AvailableTracks, SearchUncut, SearchTrimmed, Reserve,
      GoodState, ValidProblem, GapRequest, SearchOf;
    WellFormedSize(q);
    StateRejected(q, policy, g, s);
    if Roomy(q, Most(policy)) {
      RoomyState(q, policy, g, s);
    }
    var r := StateRequest(q, policy, g, s);
    if Validate(r).None? {
      StateNextSearched(q, policy, g, s);
    } else {
      StateStopped(q, policy, g, s);
    }
  }

  /** With room enough the search of one state is exhaustive. */
  lemma RoomyState(q: Problem, policy: AdditionPolicy, g: nat, s: GlobalState)
    requires ValidProblem(q) && g < |q.gaps| && Roomy(q, Most(policy))
    ensures StateUncut(q, policy, g, s)
  {
    hide Roomy, ValidProblem, NonBinding, SearchUncut, SearchTrimmed, Reserve, StructuralBound, AvailableTracks;
    WellFormedSize(q);
    var cap := Cap(policy, s.added, Reserve(q, policy, g));
    RoomySearch(q, Most(policy), s.route, g, cap);
    RoomySearchUncut(StateRequest(q, policy, g, s), 0);
    hide CountComplete;
    if policy.ExactPerGap? {
      CompleteSearchCounts(StateRequest(q, policy, g, s), 0, policy.count);
    }
  }

  /** Every path that the policy can use is among the options. */
  lemma StateOffers(q: Problem, policy: AdditionPolicy, g: nat, s: GlobalState, xs: seq<nat>)
    requires WellFormed(q) && g < |q.gaps| && StateUncut(q, policy, g, s)
    requires var r := StateRequest(q, policy, g, s);
             Validate(r).None? && |xs| <= r.config.maxIntermediates && Feasible(r, 0, xs)
    requires policy.ExactPerGap? ==> |xs| == policy.count
    ensures HasOption(SearchOf(StateRequest(q, policy, g, s), 0).options, xs)
  {
    hide SearchUncut, SearchTrimmed, CountComplete, Validate, Feasible, StateRequest, OptionsBelow, StructuralBound;
    if policy.MinimumTotal? {
      CompleteSearchCounts(StateRequest(q, policy, g, s), 0, |xs|);
    }
    CompleteCountIsOffered(StateRequest(q, policy, g, s), 0, xs);
  }

  /** Of the paths of one count that a gap search leaves out none comes before
      one it keeps: gap searches never vary, whatever the request asks for. */
  lemma StateKeepsLeast(q: Problem, policy: AdditionPolicy, g: nat, s: GlobalState, xs: seq<nat>, o: PathOption)
    requires WellFormed(q) && g < |q.gaps|
    requires var r := StateRequest(q, policy, g, s);
             && Validate(r).None? && SearchUncut(r, 0) && o in SearchOf(r, 0).options
             && |xs| == |o.intermediates| && |xs| <= r.config.maxIntermediates && Feasible(r, 0, xs)
             && !HasOption(SearchOf(r, 0).options, xs)
    ensures KeyLe(OptionKey(o), PathKey(StateRequest(q, policy, g, s), xs))
  {
    hide Validate, SearchUncut, OptionsBelow, StructuralBound, Feasible, AllGood, KeyLe, PathKey, WorstLimit, Reserve,
      SearchTrimmed, Cap;
    var r := StateRequest(q, policy, g, s);
    SearchAnswers(r, 0);
    assert OptionsAnswer(r, SearchOf(r, 0).options, SearchTrimmed(r, 0), xs);
  }

  lemma StateNextSearched(q: Problem, policy: AdditionPolicy, g: nat, s: GlobalState)
    requires ValidProblem(q) && g < |q.gaps| && GoodState(q, policy, g, s)
    requires Validate(StateRequest(q, policy, g, s)).None?
    ensures AllGoodStates(q, policy, g + 1, StateNext(q, policy, g, s))
    ensures StateUncut(q, policy, g, s) ==> Carries(q, policy, s, StateNext(q, policy, g, s))
    ensures Roomy(q, Most(policy)) ==> |StateNext(q, policy, g, s)| <= Geometric(MostCandidates(q.gaps), Most(policy))
  {
    hide GoodState, Separates, Feasible, OptionsAnswer, Roomy, Carries, AllGood, Geometric, Validate, StructuralBound,
      AvailableTracks, SearchUncut, SearchTrimmed, Reserve, AllGoodStates, ValidProblem, OptionsBelow, Target,
      CountComplete;
    WellFormedSize(q);
    var r, cap := StateRequest(q, policy, g, s), Cap(policy, s.added, Reserve(q, policy, g));
    SearchAnswers(r, 0);
    var options := SearchOf(r, 0).options;
    ExpandedIsSound(q, policy, g, s, cap, options);
    if StateUncut(q, policy, g, s) {
      if policy.MinimumTotal? {
        ReserveIsLower(q, policy, g);
      }
      forall xs: seq<nat> | |xs| <= r.config.maxIntermediates && Feasible(r, 0, xs) &&
                            (policy.ExactPerGap? ==> |xs| == policy.count)
        ensures HasOption(options, xs)
      {
        StateOffers(q, policy, g, s, xs);
      }
      ExpandedCarries(q, policy, g, s, Reserve(q, policy, g), options);
    }
    if Roomy(q, Most(policy)) {
      RoomySearch(q, Most(policy), s.route, g, cap);
    }
  }

  /** One state searched into one gap.  `cut` says that some limit of the gap
      search dropped a path, partial or complete, that the policy can use. */
  method ExpandState(q: Problem, policy: AdditionPolicy, g: nat, s: GlobalState, minimumAfter: nat)
    returns (failure: Option<PathError>, next: seq<GlobalState>, ghost cut: bool)
    requires ValidProblem(q) && g < |q.gaps| && GoodState(q, policy, g, s)
    requires minimumAfter == Reserve(q, policy, g)
    ensures failure.Some? <==> q.gaps[g].left == q.gaps[g].right
    ensures failure.Some? ==> failure.value == AnchorsMustDiffer
    ensures next == StateNext(q, policy, g, s)
    ensures cut <==> !StateUncut(q, policy, g, s)
    ensures AllGoodStates(q, policy, g + 1, next)
    ensures Roomy(q, Most(policy)) ==> !cut
    ensures failure.None? && !cut ==> Carries(q, policy, s, next)
    ensures Roomy(q, Most(policy)) ==> |next| <= Geometric(MostCandidates(q.gaps), Most(policy))
  {
    hide GoodState, Feasible, OptionsAnswer, Roomy, Carries, NonBinding, AllGood, Geometric, Validate, SearchOf,
      StructuralBound, AvailableTracks, SearchUncut, SearchTrimmed, Reserve, AllGoodStates, OnePerCount, Power;
    StateRejected(q, policy, g, s);
    StateNextIsGood(q, policy, g, s);
    var r := GapRequest(q, s.route, g, Cap(policy, s.added, minimumAfter));
    cut := !StateUncut(q, policy, g, s);
    var result, _, _ := Search(r, 0);
    if result.Rejected? {
      return Some(result.error), [], cut;
    }
    next := AdvanceAll(policy, s, result.options);
    return None, next, cut;
  }

  lemma CarriesGrows(q: Problem, policy: AdditionPolicy, s: GlobalState, next: seq<GlobalState>, more: seq<GlobalState>)
    requires |s.picks| < |q.gaps|
    requires Carries(q, policy, s, next) || Carries(q, policy, s, more)
    ensures Carries(q, policy, s, next + more)
  {
    hide Target;
    assert forall t :: t in next + more <==> t in next || t in more;
  }

  lemma AllGoodStatesJoin(q: Problem, policy: AdditionPolicy, g: nat, a: seq<GlobalState>, b: seq<GlobalState>)
    requires AllGoodStates(q, policy, g, a) && AllGoodStates(q, policy, g, b)
    ensures AllGoodStates(q, policy, g, a + b)
  {
    hide GoodState;
  }

  lemma CoversNext(q: Problem, policy: AdditionPolicy, g: nat, states: seq<GlobalState>, next: seq<GlobalState>)
    requires g < |q.gaps| && AllGoodStates(q, policy, g, states) && Covers(q, policy, g, states)
    requires forall i | 0 <= i < |states| :: |states[i].picks| == g && Carries(q, policy, states[i], next)
    ensures Covers(q, policy, g + 1, next)
  {
    hide GoodState, GoodPrefix, Within;
    forall picks: seq<seq<nat>> | Target(q, policy, picks) ensures HasPicks(next, picks[..g + 1]) {
      assert HasPicks(states, picks[..g]);
      var s :| s in states && s.picks == picks[..g];
      var i :| 0 <= i < |states| && states[i] == s;
      assert Carries(q, policy, states[i], next);
    }
  }

  /** The successors of all states, in state order. */
  ghost function Expansion(q: Problem, policy: AdditionPolicy, g: nat, states: seq<GlobalState>): seq<GlobalState>
    requires WellFormed(q) && g < |q.gaps|
  {
    if states == [] then []
    else Expansion(q, policy, g, states[..|states| - 1]) + StateNext(q, policy, g, states[|states| - 1])
  }

  ghost predicate StatesUncut(q: Problem, policy: AdditionPolicy, g: nat, states: seq<GlobalState>)
    requires WellFormed(q) && g < |q.gaps|
  {
    forall s | s in states :: StateUncut(q, policy, g, s)
  }

  lemma LastState(q: Problem, policy: AdditionPolicy, g: nat, states: seq<GlobalState>)
    requires states != [] && AllGoodStates(q, policy, g, states)
    ensures GoodState(q, policy, g, states[|states| - 1])
    ensures AllGoodStates(q, policy, g, states[..|states| - 1])
  {
    hide GoodState;
  }

  lemma {:induction false} ExpansionIsGood(q: Problem, policy: AdditionPolicy, g: nat, states: seq<GlobalState>)
    requires ValidProblem(q) && g < |q.gaps| && AllGoodStates(q, policy, g, states)
    ensures AllGoodStates(q, policy, g + 1, Expansion(q, policy, g, states))
    ensures q.gaps[g].left == q.gaps[g].right ==>
              StatesUncut(q, policy, g, states) && Expansion(q, policy, g, states) == []
  {
    hide GoodState, ValidProblem, StateNext, StateUncut, Carries, Roomy, AllGoodStates, StatesUncut;
    WellFormedSize(q);
    if states == [] {
      NothingIsGood(q, policy, g);
    } else {
      var fewer, last := states[..|states| - 1], states[|states| - 1];
      LastState(q, policy, g, states);
      ExpansionIsGood(q, policy, g, fewer);
      StateNextIsGood(q, policy, g, last);
      AllGoodStatesJoin(q, policy, g + 1, Expansion(q, policy, g, fewer), StateNext(q, policy, g, last));
      if q.gaps[g].left == q.gaps[g].right {
        StateStopped(q, policy, g, last);
        LastUncut(q, policy, g, states);
      }
    }
  }

  lemma NothingIsGood(q: Problem, policy: AdditionPolicy, g: nat)
    requires WellFormed(q) && g < |q.gaps|
    ensures AllGoodStates(q, policy, g + 1, []) && StatesUncut(q, policy, g, [])
  {
  }

  lemma LastUncut(q: Problem, policy: AdditionPolicy, g: nat, states: seq<GlobalState>)
    requires WellFormed(q) && g < |q.gaps| && states != []
    ensures StatesUncut(q, policy, g, states) <==>
            StatesUncut(q, policy, g, states[..|states| - 1]) && StateUncut(q, policy, g, states[|states| - 1])
  {
    hide StateUncut;
    assert states == states[..|states| - 1] + [states[|states| - 1]];
  }

  /** With room enough no state's search is cut, and the expansion stays small. */
  lemma {:induction false} RoomyExpansion(q: Problem, policy: AdditionPolicy, g: nat, states: seq<GlobalState>)
    requires ValidProblem(q) && g < |q.gaps| && AllGoodStates(q, policy, g, states) && Roomy(q, Most(policy))
    ensures StatesUncut(q, policy, g, states)
    ensures |Expansion(q, policy, g, states)| <= |states| * Geometric(MostCandidates(q.gaps), Most(policy))
  {
    hide GoodState, Roomy, Carries, Geometric, ValidProblem, StateNext, StateUncut, AllGoodStates, StatesUncut;
    WellFormedSize(q);
    var size := Geometric(MostCandidates(q.gaps), Most(policy));
    if states == [] {
      ProductNonNegative(0, size);
      NothingIsGood(q, policy, g);
    } else {
      var n := |states| - 1;
      LastState(q, policy, g, states);
      RoomyExpansion(q, policy, g, states[..n]);
      StateNextIsGood(q, policy, g, states[n]);
      LastUncut(q, policy, g, states);
      OneMore(n, size);
    }
  }

  lemma OneMore(n: nat, size: nat)
    ensures n * size + size == (n + 1) * size
  {
  }

  /** Uncut, the expansion carries on what passes through any of the states. */
  lemma {:induction false} ExpansionCarries(q: Problem, policy: AdditionPolicy, g: nat, states: seq<GlobalState>,
                                            s: GlobalState)
    requires ValidProblem(q) && g < |q.gaps| && AllGoodStates(q, policy, g, states) && s in states
    requires q.gaps[g].left != q.gaps[g].right && StatesUncut(q, policy, g, states)
    ensures |s.picks| == g && Carries(q, policy, s, Expansion(q, policy, g, states))
  {
    hide GoodState, Roomy, Carries, ValidProblem, StateNext, StateUncut;
    WellFormedSize(q);
    var n := |states| - 1;
    var fewer, last := states[..n], states[n];
    assert states == fewer + [last];
    assert GoodState(q, policy, g, s);
    StatePicks(q, policy, g, s);
    if s == last {
      StateNextIsGood(q, policy, g, last);
    } else {
      ExpansionCarries(q, policy, g, fewer, s);
    }
    CarriesGrows(q, policy, s, Expansion(q, policy, g, fewer), StateNext(q, policy, g, last));
  }

  lemma StatePicks(q: Problem, policy: AdditionPolicy, g: nat, s: GlobalState)
    requires GoodState(q, policy, g, s)
    ensures |s.picks| == g
  {
  }

  /** Between equal anchors no state goes on, and no limit is felt. */
  lemma StateStopped(q: Problem, policy: AdditionPolicy, g: nat, s: GlobalState)
    requires ValidProblem(q) && g < |q.gaps| && GoodState(q, policy, g, s) && q.gaps[g].left == q.gaps[g].right
    ensures StateNext(q, policy, g, s) == [] && StateUncut(q, policy, g, s)
  {
    hide GoodState, Validate, ValidProblem, UncutBelow, TrimmedBelow, GapRequest, StructuralBound, OptionsBelow,
      CountUncut, CountTrimmed, FirstCount;
    StateRejected(q, policy, g, s);
  }

  /** All retained states searched into one gap, in state order. */
  method ExpandAll(q: Problem, policy: AdditionPolicy, g: nat, states: seq<GlobalState>, minimumAfter: nat)
    returns (failure: Option<PathError>, expanded: seq<GlobalState>, ghost cut: bool)
    requires ValidProblem(q) && g < |q.gaps| && AllGoodStates(q, policy, g, states)
    requires minimumAfter == Reserve(q, policy, g)
    ensures failure.Some? <==> states != [] && q.gaps[g].left == q.gaps[g].right
    ensures failure.Some? ==> failure.value == AnchorsMustDiffer
    ensures expanded == Expansion(q, policy, g, states)
    ensures cut <==> !StatesUncut(q, policy, g, states)
    ensures AllGoodStates(q, policy, g + 1, expanded)
    ensures Roomy(q, Most(policy)) ==> !cut
    ensures failure.None? && !cut && Covers(q, policy, g, states) ==> Covers(q, policy, g + 1, expanded)
    ensures Roomy(q, Most(policy)) ==>
              |expanded| <= |states| * Geometric(MostCandidates(q.gaps), Most(policy))
  {
    hide GoodState, Roomy, Carries, Geometric, Covers, ValidProblem, StateNext, StateUncut, Reserve, AllGoodStates,
      StatesUncut;
    WellFormedSize(q);
    NothingIsGood(q, policy, g);
    ExpansionIsGood(q, policy, g, states);
    if Roomy(q, Most(policy)) {
      RoomyExpansion(q, policy, g, states);
    }
    expanded, cut := [], false;
    var k := 0;
    while k < |states|
      invariant 0 <= k <= |states|
      invariant k > 0 ==> q.gaps[g].left != q.gaps[g].right
      invariant expanded == Expansion(q, policy, g, states[..k])
      invariant cut <==> !StatesUncut(q, policy, g, states[..k])
    {
      MemberState(q, policy, g, states, k);
      var stopped, next;
      ghost var cutHere;
      stopped, next, cutHere := ExpandState(q, policy, g, states[k], minimumAfter);
      if stopped.Some? {
        return stopped, [], false;
      }
      assert states[..k + 1][..k] == states[..k];
      LastUncut(q, policy, g, states[..k + 1]);
      cut := cut || cutHere;
      expanded := expanded + next;
      k := k + 1;
    }
    assert states[..k] == states;
    if !cut {
      ExpansionCovers(q, policy, g, states);
    }
    return None, expanded, cut;
  }

  lemma MemberState(q: Problem, policy: AdditionPolicy, g: nat, states: seq<GlobalState>, k: nat)
    requires AllGoodStates(q, policy, g, states) && k < |states|
    ensures GoodState(q, policy, g, states[k])
  {
    hide GoodState;
  }

  lemma ExpansionCovers(q: Problem, policy: AdditionPolicy, g: nat, states: seq<GlobalState>)
    requires ValidProblem(q) && g < |q.gaps| && AllGoodStates(q, policy, g, states)
    requires StatesUncut(q, policy, g, states) && (states == [] || q.gaps[g].left != q.gaps[g].right)
    ensures Covers(q, policy, g, states) ==> Covers(q, policy, g + 1, Expansion(q, policy, g, states))
  {
    hide GoodState, Roomy, Carries, Geometric, ValidProblem, StateNext, StateUncut, Target;
    WellFormedSize(q);
    if states != [] {
      if Covers(q, policy, g, states) {
        forall i | 0 <= i < |states|
          ensures |states[i].picks| == g && Carries(q, policy, states[i], Expansion(q, policy, g, states))
        {
          ExpansionCarries(q, policy, g, states, states[i]);
        }
        CoversNext(q, policy, g, states, Expansion(q, policy, g, states));
      }
    }
  }

  // ----- cutting to the beam -----

  function RouteOf(s: GlobalState): seq<nat> {
    s.route
  }

  function AddedOf(s: GlobalState): nat {
    s.added
  }

  /** Keeps the first `beam` states. */
  function Beam(beam: nat): seq<GlobalState> -> seq<GlobalState> {
    states => Take(states, beam)
  }

  function Ordered(policy: AdditionPolicy, states: seq<GlobalState>): seq<GlobalState> {
    SortBy(states, s => StateKey(policy, s))
  }

  function Retain(policy: AdditionPolicy, beam: nat, expanded: seq<GlobalState>): seq<GlobalState> {
    var states := DedupBy(Ordered(policy, expanded), RouteOf);
    match policy
    case ExactPerGap(_) => Take(states, beam)
    case MinimumTotal(maximum) => PerBucket(states, AddedOf, Beam(beam), maximum + 1)
  }

  /** The beam of no addition count is overfull. */
  ghost predicate BucketsFit(states: seq<GlobalState>, beam: nat) {
    forall c: nat :: |Bucket(states, AddedOf, c)| <= beam
  }

  /** The beam drops no state that was expanded. */
  ghost predicate BeamUncut(policy: AdditionPolicy, beam: nat, expanded: seq<GlobalState>) {
    var states := DedupBy(Ordered(policy, expanded), RouteOf);
    if policy.ExactPerGap? then |states| <= beam else BucketsFit(states, beam)
  }

  lemma SmallEnoughForTheBeam(policy: AdditionPolicy, beam: nat, expanded: seq<GlobalState>)
    requires |expanded| <= beam
    ensures BeamUncut(policy, beam, expanded)
  {
    hide SortBy, DedupBy, Bucket;
    var states := DedupBy(Ordered(policy, expanded), RouteOf);
    forall c: nat ensures |Bucket(states, AddedOf, c)| <= beam {
      BucketMembers(states, AddedOf, c);
    }
  }

  lemma BucketsKeep(states: seq<GlobalState>, beam: nat, counts: nat)
    ensures forall s :: s in PerBucket(states, AddedOf, Beam(beam), counts) ==> s in states
    ensures BucketsFit(states, beam) ==>
              forall s :: s in states && s.added < counts ==> s in PerBucket(states, AddedOf, Beam(beam), counts)
    ensures |PerBucket(states, AddedOf, Beam(beam), counts)| <= |states|
  {
    hide Bucket, PerBucket, CountBelow;
    PerBucketSize(states, AddedOf, Beam(beam), counts);
    forall s | s in PerBucket(states, AddedOf, Beam(beam), counts) ensures s in states {
      var c := PerBucketOrigin(states, AddedOf, Beam(beam), counts, s);
      BucketMembers(states, AddedOf, c);
    }
    if BucketsFit(states, beam) {
      forall s | s in states && s.added < counts ensures s in PerBucket(states, AddedOf, Beam(beam), counts) {
        BucketMembers(states, AddedOf, s.added);
        assert |Bucket(states, AddedOf, s.added)| <= beam;
        PerBucketHolds(states, AddedOf, Beam(beam), counts, s.added, s);
      }
    }
  }

  lemma RetainMembers(policy: AdditionPolicy, beam: nat, expanded: seq<GlobalState>)
    ensures forall s :: s in Retain(policy, beam, expanded) ==> s in expanded
    ensures |Retain(policy, beam, expanded)| <= |expanded|
  {
    hide SortBy, DedupBy, PerBucket;
    SortByMembers(expanded, s => StateKey(policy, s));
    var states := DedupBy(Ordered(policy, expanded), RouteOf);
    DedupByKeeps(Ordered(policy, expanded), RouteOf, []);
    if policy.MinimumTotal? {
      BucketsKeep(states, beam, policy.maximum + 1);
    }
  }

  /** Whatever the beam drops, it keeps nothing that comes later in order:
      overall with a fixed count per gap, within each addition count otherwise. */
  lemma BeamKeepsLeast(policy: AdditionPolicy, beam: nat, expanded: seq<GlobalState>, kept: GlobalState,
                       dropped: GlobalState)
    requires kept in Retain(policy, beam, expanded)
    requires dropped in DedupBy(Ordered(policy, expanded), RouteOf) && dropped !in Retain(policy, beam, expanded)
    requires policy.MinimumTotal? ==> kept.added == dropped.added <= policy.maximum
    ensures KeyLe(StateKey(policy, kept), StateKey(policy, dropped))
  {
    hide SortBy, DedupBy, PerBucket, Bucket, Take, KeyLe;
    var key := (s: GlobalState) => StateKey(policy, s);
    var states := DedupBy(Ordered(policy, expanded), RouteOf);
    SortBySorts(expanded, key);
    assert SortedBy(Ordered(policy, expanded), key);
    DedupBySorted(Ordered(policy, expanded), RouteOf, key);
    match policy
    case ExactPerGap(_) =>
      TakeKeepsLeast(states, beam, key, kept, dropped);
    case MinimumTotal(maximum) =>
      BucketKeepsLeast(states, beam, maximum + 1, key, kept, dropped);
  }

  lemma BucketKeepsLeast(states: seq<GlobalState>, beam: nat, counts: nat,
                         key: GlobalState -> Key, kept: GlobalState, dropped: GlobalState)
    requires SortedBy(states, key) && kept in PerBucket(states, AddedOf, Beam(beam), counts)
    requires dropped in states && dropped !in PerBucket(states, AddedOf, Beam(beam), counts)
    requires kept.added == dropped.added < counts
    ensures KeyLe(key(kept), key(dropped))
  {
    hide SortedBy, PerBucket, Bucket, Take, KeyLe;
    var c := PerBucketOrigin(states, AddedOf, Beam(beam), counts, kept);
    TakeMembers(Bucket(states, AddedOf, c), beam);
    BucketMembers(states, AddedOf, c);
    BucketSorted(states, AddedOf, c, key);
    if dropped in Beam(beam)(Bucket(states, AddedOf, c)) {
      PerBucketHolds(states, AddedOf, Beam(beam), counts, c, dropped);
    }
    TakeKeepsLeast(Bucket(states, AddedOf, c), beam, key, kept, dropped);
  }

  lemma TakeMembers(states: seq<GlobalState>, beam: nat)
    ensures Beam(beam)(states) == Take(states, beam)
    ensures forall s :: s in Take(states, beam) ==> s in states
  {
  }

  lemma RetainSound(q: Problem, policy: AdditionPolicy, g: nat, beam: nat, expanded: seq<GlobalState>)
    requires AllGoodStates(q, policy, g, expanded)
    ensures AllGoodStates(q, policy, g, Retain(policy, beam, expanded))
  {
    hide GoodState, Retain;
    RetainMembers(policy, beam, expanded);
  }

  /** A route that survives is the only state that spells it, so nothing is
      lost when the beam cuts nothing. */
  lemma RetainKeepsPicks(q: Problem, policy: AdditionPolicy, g: nat, beam: nat, expanded: seq<GlobalState>,
                         s: GlobalState)
    requires AllGoodStates(q, policy, g, expanded) && BeamUncut(policy, beam, expanded) && s in expanded
    ensures HasPicks(Retain(policy, beam, expanded), s.picks)
  {
    hide GoodState, SortBy, DedupBy, PerBucket;
    var sorted := Ordered(policy, expanded);
    SortByMembers(expanded, s => StateKey(policy, s));
    assert s in sorted;
    assert RouteOf(s) == s.route;
    DedupByKeeps(sorted, RouteOf, s.route);
    var states := DedupBy(sorted, RouteOf);
    assert HasBy(states, RouteOf, s.route);
    var kept :| kept in states && RouteOf(kept) == s.route;
    assert kept in expanded;
    SameRouteSamePicks(q, policy, g, kept, s);
    if policy.MinimumTotal? {
      BucketsKeep(states, beam, policy.maximum + 1);
    }
    assert kept in Retain(policy, beam, expanded);
  }

  lemma SameRouteSamePicks(q: Problem, policy: AdditionPolicy, g: nat, a: GlobalState, b: GlobalState)
    requires GoodState(q, policy, g, a) && GoodState(q, policy, g, b) && a.route == b.route
    ensures a.picks == b.picks
    ensures policy.MinimumTotal? ==> a.added <= policy.maximum
  {
    hide Flatten, Assemble, SafeFrom, PlanCost, PlanKey;
    AssembleInjective(q.source, a.picks, b.picks);
  }

  lemma RetainCovers(q: Problem, policy: AdditionPolicy, g: nat, beam: nat, expanded: seq<GlobalState>)
    requires g <= |q.gaps| && AllGoodStates(q, policy, g, expanded) && BeamUncut(policy, beam, expanded)
    requires Covers(q, policy, g, expanded)
    ensures Covers(q, policy, g, Retain(policy, beam, expanded))
  {
    hide GoodState, GoodPrefix, Within, Retain, BeamUncut;
    forall picks: seq<seq<nat>> | Target(q, policy, picks)
      ensures HasPicks(Retain(policy, beam, expanded), picks[..g])
    {
      assert HasPicks(expanded, picks[..g]);
      var s :| s in expanded && s.picks == picks[..g];
      RetainKeepsPicks(q, policy, g, beam, expanded, s);
    }
  }

  lemma EmptyBuckets(states: seq<GlobalState>, beam: nat)
    ensures forall c: nat :: Take(Bucket(states[..0], AddedOf, c), beam) == []
  {
  }

  /** One more state grows its own bucket, unless that one is full. */
  lemma BucketStep(states: seq<GlobalState>, beam: nat, k: nat)
    requires k < |states|
    ensures forall c: nat ::
              var before := Take(Bucket(states[..k], AddedOf, c), beam);
              Take(Bucket(states[..k + 1], AddedOf, c), beam) ==
              if c == states[k].added && |before| < beam then before + [states[k]] else before
  {
    assert states[..k + 1][..k] == states[..k];
  }

  /** Buckets filled in order, each up to the beam width. */
  method FillPerCount(states: seq<GlobalState>, beam: nat, maximum: nat) returns (kept: seq<GlobalState>)
    requires forall s | s in states :: s.added <= maximum
    ensures kept == PerBucket(states, AddedOf, Beam(beam), maximum + 1)
  {
    hide Bucket, Take;
    var perCount: seq<seq<GlobalState>> := seq(maximum + 1, _ => []);
    EmptyBuckets(states, beam);
    for k := 0 to |states|
      invariant |perCount| == maximum + 1
      invariant forall c | 0 <= c <= maximum :: perCount[c] == Take(Bucket(states[..k], AddedOf, c), beam)
    {
      var s := states[k];
      assert s in states;
      BucketStep(states, beam, k);
      if |perCount[s.added]| < beam {
        perCount := perCount[s.added := perCount[s.added] + [s]];
      }
    }
    assert states[..|states|] == states;
    kept := [];
    for c := 0 to maximum + 1
      invariant kept == PerBucket(states, AddedOf, Beam(beam), c)
    {
      kept := kept + perCount[c];
    }
  }

  method RetainStates(policy: AdditionPolicy, beam: nat, expanded: seq<GlobalState>) returns (kept: seq<GlobalState>)
    requires policy.MinimumTotal? ==> forall s | s in expanded :: s.added <= policy.maximum
    ensures kept == Retain(policy, beam, expanded)
  {
    hide SortBy, DedupBy, PerBucket;
    SortByMembers(expanded, s => StateKey(policy, s));
    DedupByKeeps(Ordered(policy, expanded), RouteOf, []);
    var states := DedupBy(Ordered(policy, expanded), RouteOf);
    match policy
    case ExactPerGap(_) => kept := Take(states, beam);
    case MinimumTotal(maximum) => kept := FillPerCount(states, beam, maximum);
  }

  // ----- the final proof -----

  predicate GeneratedOk(q: Problem, s: GlobalState) {
    && RoutedSources(s.route, q.source) == q.source
    && Avoids(Flatten(s.picks), q.source) && Distinct(Flatten(s.picks))
  }

  predicate RouteRepeatSafe(q: Problem, route: seq<nat>) {
    forall position | |q.history| <= position < |q.history + route| ::
      PositionSafe(q.policy, q.history + route, position)
  }

  predicate FixedFinalValid(q: Problem, count: nat, s: GlobalState)
    requires q.source != []
  {
    && |s.route| == |q.source| + count * (|q.source| - 1)
    && |s.picks| == |q.gaps|
    && (forall g | 0 <= g < |s.picks| :: |s.picks[g]| == count)
    && GeneratedOk(q, s) && RouteRepeatSafe(q, s.route)
  }

  predicate RepairFinalValid(q: Problem, budget: nat, s: GlobalState) {
    && s.added <= budget
    && |s.route| == |q.source| + s.added
    && |s.picks| == |q.gaps|
    && |Flatten(s.picks)| == s.added
    && GeneratedOk(q, s) && RouteRepeatSafe(q, s.route)
  }

  predicate FinalValid(q: Problem, policy: AdditionPolicy, budget: nat, s: GlobalState)
    requires q.source != []
  {
    match policy
    case ExactPerGap(count) => FixedFinalValid(q, count, s)
    case MinimumTotal(_) => RepairFinalValid(q, budget, s)
  }

  lemma AddedMeaning(added: seq<nat>, source: seq<nat>)
    ensures Avoids(added, source) <==> forall i | 0 <= i < |added| :: added[i] !in source
    ensures Distinct(added) <==> forall i, j | 0 <= i < j < |added| :: added[i] != added[j]
  {
  }

  /** The sources in order, distinct additions that are no sources, and every
      window kept from the listening history on. */
  ghost predicate Proven(q: Problem, s: GlobalState) {
    var added := Flatten(s.picks);
    && |s.picks| == |q.gaps|
    && RoutedSources(s.route, q.source) == q.source
    && (forall i | 0 <= i < |added| :: added[i] !in q.source)
    && (forall i, j | 0 <= i < j < |added| :: added[i] != added[j])
    && SafeFrom(q.policy, q.history + s.route, |q.history|)
  }

  lemma ProvenMeaning(q: Problem, s: GlobalState)
    ensures Proven(q, s) <==> |s.picks| == |q.gaps| && GeneratedOk(q, s) && RouteRepeatSafe(q, s.route)
  {
    hide PositionSafe, SafeFrom, RoutedSources, Flatten, Avoids, Distinct;
    SafeFromPositions(q.policy, q.history + s.route, |q.history|);
    AddedMeaning(Flatten(s.picks), q.source);
  }

  /** What the final proof establishes of any state, however it was found. */
  lemma FinalProofMeaning(q: Problem, policy: AdditionPolicy, budget: nat, s: GlobalState)
    requires q.source != []
    ensures policy.ExactPerGap? ==>
              (FinalValid(q, policy, budget, s) <==>
               && Proven(q, s) && |s.route| == |q.source| + policy.count * (|q.source| - 1)
               && forall g | 0 <= g < |s.picks| :: |s.picks[g]| == policy.count)
    ensures policy.MinimumTotal? ==>
              (FinalValid(q, policy, budget, s) <==>
               Proven(q, s) && |s.route| == |q.source| + s.added && |Flatten(s.picks)| == s.added <= budget)
  {
    hide Proven, GeneratedOk, RouteRepeatSafe, Flatten;
    ProvenMeaning(q, s);
  }

  lemma {:induction false} FlattenOfEqualCounts(picks: seq<seq<nat>>, count: nat)
    requires forall g | 0 <= g < |picks| :: |picks[g]| == count
    ensures |Flatten(picks)| == count * |picks|
  {
    if picks != [] {
      var n := |picks| - 1;
      FlattenOfEqualCounts(picks[..n], count);
      assert |Flatten(picks)| == |Flatten(picks[..n])| + |picks[n]|;
      assert count * (n + 1) == count * n + count;
    }
  }

  lemma RouteSize(q: Problem, picks: seq<seq<nat>>)
    requires |picks| < |q.source|
    ensures |Assemble(q.source, picks)| == |picks| + 1 + |Flatten(picks)|
  {
    SourcePosition(q.source, picks, |picks|);
    LengthsBefore(picks, |picks|);
    assert picks[..|picks|] == picks;
  }

  lemma RouteRepeatSafeMeaning(q: Problem, picks: seq<seq<nat>>)
    requires GoodPrefix(q, picks)
    ensures RouteRepeatSafe(q, Assemble(q.source, picks)) <==> HeadClear(q)
  {
    hide PositionSafe, Eligible, PlanCost, HeadClear, SafeFrom;
    var route := Assemble(q.source, picks);
    AssembleHead(q.source, picks);
    SafeFromPositions(q.policy, q.history + route, |q.history|);
    HeadDecides(q, route);
  }

  /** The final proof can reject a retained state for one reason only: the
      first source track repeats too soon after the listening history. */
  lemma FinalProofNeverRejects(q: Problem, policy: AdditionPolicy, budget: nat, s: GlobalState)
    requires GoodState(q, policy, |q.gaps|, s)
    requires policy.MinimumTotal? ==> policy.maximum <= budget
    ensures FinalValid(q, policy, budget, s) <==> HeadClear(q)
  {
    hide RoutedSources, HeadClear, RouteRepeatSafe, PlanKey, SafeFrom, Assemble, PlanCost, Distinct, Avoids, Flatten;
    RouteRepeatSafeMeaning(q, s.picks);
    RoutedSourcesOfPlan(q.source, s.picks);
    assert q.source[..|s.picks| + 1] == q.source;
    RouteSize(q, s.picks);
    if policy.ExactPerGap? {
      FlattenOfEqualCounts(s.picks, policy.count);
    }
  }

  function KeepValid(q: Problem, policy: AdditionPolicy, budget: nat, states: seq<GlobalState>): seq<GlobalState>
    requires q.source != []
  {
    if states == [] then []
    else
      var rest := KeepValid(q, policy, budget, states[1..]);
      if FinalValid(q, policy, budget, states[0]) then [states[0]] + rest else rest
  }

  lemma {:induction false} KeepValidAllOrNothing(q: Problem, policy: AdditionPolicy, budget: nat,
                                                 states: seq<GlobalState>)
    requires q.source != [] && AllGoodStates(q, policy, |q.gaps|, states)
    requires policy.MinimumTotal? ==> policy.maximum <= budget
    ensures KeepValid(q, policy, budget, states) == if HeadClear(q) then states else []
  {
    hide GoodState, FinalValid, HeadClear;
    if states != [] {
      FinalProofNeverRejects(q, policy, budget, states[0]);
      KeepValidAllOrNothing(q, policy, budget, states[1..]);
    }
  }

  // ----- the final choice -----

  function StateLegs(s: GlobalState): Cost {
    Cost(s.sum, s.worst)
  }

  function PoolSize(quality: nat, percent: nat): (n: nat)
    requires quality > 0 && percent <= 100
    ensures 1 <= n <= quality
    ensures percent == 0 ==> n == 1
  {
    if percent == 0 then 1 else 1 + Share(quality - 1, percent)
  }

  /** The best state, and of the others as good the requested percentage. */
  lemma PoolSizeMeaning(quality: nat, percent: nat)
    requires quality > 0 && percent <= 100
    ensures var others := PoolSize(quality, percent) - 1;
            && 100 * others <= (quality - 1) * percent < 100 * others + 100
            && (percent == 100 ==> others == quality - 1)
  {
    if percent > 0 {
      ShareIsFloor(quality - 1, percent);
      ShareGrows(quality - 1, percent, percent);
    }
  }

  /** The states that compete for the final choice, in order. */
  function Equals(policy: AdditionPolicy, states: seq<GlobalState>): seq<GlobalState>
    requires states != []
  {
    var ordered := Ordered(policy, states);
    if policy.MinimumTotal? then Bucket(ordered, AddedOf, ordered[0].added) else ordered
  }

  /** The seeded order of the pool. */
  function Variation(key: seq<nat> -> nat): GlobalState -> Key {
    (s: GlobalState) => Key(key(s.route), 0.0, 0.0, 0.0, [])
  }

  function SelectState(q: Problem, policy: AdditionPolicy, states: seq<GlobalState>): GlobalState
    requires states != [] && q.limits.variationPercent <= 100
  {
    var equal := Equals(policy, states);
    if equal == [] then Ordered(policy, states)[0]
    else
      var selected := equal[..PoolSize(QualityCount(CostsOf(equal, StateLegs)), q.limits.variationPercent)];
      if q.limits.variationPercent > 0 then SortBy(selected, Variation(q.routeVariation))[0] else selected[0]
  }

  ghost predicate WellChosen(q: Problem, policy: AdditionPolicy, states: seq<GlobalState>, c: GlobalState) {
    && c in states
    && (policy.MinimumTotal? ==> forall s | s in states :: c.added <= s.added)
    && (q.limits.variationPercent == 0 ==> forall s | s in states :: KeyLe(StateKey(policy, c), StateKey(policy, s)))
    && forall s | s in states && (policy.MinimumTotal? ==> s.added == c.added) :: c.worst <= WorstLimit(s.worst)
  }

  lemma {:induction false} BucketFirst(states: seq<GlobalState>)
    requires states != []
    ensures Bucket(states, AddedOf, states[0].added) != [] && Bucket(states, AddedOf, states[0].added)[0] == states[0]
  {
    if |states| > 1 {
      BucketFirst(states[..|states| - 1]);
    }
  }

  lemma OrderedFirst(policy: AdditionPolicy, states: seq<GlobalState>)
    requires states != []
    ensures var first := Ordered(policy, states)[0];
            first in states && forall s | s in states :: KeyLe(StateKey(policy, first), StateKey(policy, s))
    ensures forall s :: s in Ordered(policy, states) <==> s in states
  {
    hide KeyLe, SortBy;
    var key := s => StateKey(policy, s);
    SortByMembers(states, key);
    SortBySorts(states, key);
    var ordered := Ordered(policy, states);
    assert ordered == SortBy(states, key);
    forall s | s in states ensures KeyLe(StateKey(policy, ordered[0]), StateKey(policy, s)) {
      assert s in ordered;
      var i :| 0 <= i < |ordered| && ordered[i] == s;
      assert KeyLe(key(ordered[0]), key(ordered[i]));
    }
    assert ordered[0] in ordered;
  }

  lemma PoolWithinBand(equal: seq<GlobalState>, n: nat, c: GlobalState)
    requires equal != [] && n <= QualityCount(CostsOf(equal, StateLegs)) && c in equal[..n]
    ensures c in equal && c.worst <= WorstLimit(equal[0].worst)
  {
    hide QualityCount, WorstLimit;
    var i :| 0 <= i < n && equal[i] == c;
    assert CostsOf(equal, StateLegs)[i].worst <= WorstLimit(CostsOf(equal, StateLegs)[0].worst);
  }

  lemma SelectedFrom(q: Problem, policy: AdditionPolicy, states: seq<GlobalState>)
    requires states != [] && q.limits.variationPercent <= 100
    ensures var c, first := SelectState(q, policy, states), Ordered(policy, states)[0];
            && c in Ordered(policy, states)
            && c.worst <= WorstLimit(first.worst)
            && (policy.MinimumTotal? ==> c.added == first.added)
            && (q.limits.variationPercent == 0 ==> c == first)
  {
    hide QualityCount, WorstLimit, SortBy, Bucket, PoolSize;
    var ordered := Ordered(policy, states);
    var equal := Equals(policy, states);
    EqualsFirst(policy, states);
    var n := PoolSize(QualityCount(CostsOf(equal, StateLegs)), q.limits.variationPercent);
    var selected := equal[..n];
    SortByMembers(selected, Variation(q.routeVariation));
    var c := SelectState(q, policy, states);
    if q.limits.variationPercent > 0 {
      assert c in SortBy(selected, Variation(q.routeVariation));
    } else {
      assert c == selected[0];
    }
    PoolWithinBand(equal, n, c);
  }

  /** The competing states are the first in order and those of its count. */
  lemma EqualsFirst(policy: AdditionPolicy, states: seq<GlobalState>)
    requires states != []
    ensures var equal := Equals(policy, states);
            && equal != [] && equal[0] == Ordered(policy, states)[0]
            && forall s | s in equal :: s in Ordered(policy, states) &&
                (policy.MinimumTotal? ==> s.added == equal[0].added)
  {
    hide SortBy, Bucket;
    var ordered := Ordered(policy, states);
    BucketFirst(ordered);
    BucketMembers(ordered, AddedOf, ordered[0].added);
  }

  lemma SelectIsWellChosen(q: Problem, policy: AdditionPolicy, states: seq<GlobalState>)
    requires states != [] && q.limits.variationPercent <= 100
    ensures WellChosen(q, policy, states, SelectState(q, policy, states))
  {
    hide SelectState, Ordered, KeyLe, WorstLimit;
    OrderedFirst(policy, states);
    SelectedFrom(q, policy, states);
    var c, first := SelectState(q, policy, states), Ordered(policy, states)[0];
    forall s | s in states
      ensures policy.MinimumTotal? ==> first.added <= s.added
      ensures (policy.MinimumTotal? ==> s.added == first.added) ==> WorstLimit(first.worst) <= WorstLimit(s.worst)
    {
      KeyLeRank(StateKey(policy, first), StateKey(policy, s));
      if policy.MinimumTotal? ==> s.added == first.added {
        WorstLimitMonotone(first.worst, s.worst);
      }
    }
  }

  // ----- the sum test of the pool -----

  /** Length of the leading run within the sum limit. */
  function SumRun(costs: seq<Cost>, limit: real): (n: nat)
    ensures n <= |costs|
    ensures forall i | 0 <= i < n :: costs[i].sum <= limit
    ensures n < |costs| ==> costs[n].sum > limit
  {
    if costs == [] || costs[0].sum > limit then 0 else 1 + SumRun(costs[1..], limit)
  }

  /** Every member of the pool passes the sum test exactly when the pool is no
      longer than the leading run of states that pass it. */
  lemma PoolPassesExactly(costs: seq<Cost>, percent: nat)
    requires costs != [] && percent <= 100
    ensures var n, limit := PoolSize(QualityCount(costs), percent), SumLimit(costs[0].sum);
            n <= |costs| && ((forall i | 0 <= i < n :: costs[i].sum <= limit) <==> n <= SumRun(costs, limit))
  {
    hide QualityCount, SumLimit, PoolSize;
  }

  /** The choice passes the sum test whatever the seed exactly under that condition. */
  lemma VariedChoicePasses(q: Problem, policy: AdditionPolicy, states: seq<GlobalState>)
    requires states != [] && 0 < q.limits.variationPercent <= 100 && DistinctBy(states, RouteOf)
    ensures var equal := Equals(policy, states);
            && equal != []
            && var costs, limit := CostsOf(equal, StateLegs), SumLimit(equal[0].sum);
               ((forall key: seq<nat> -> nat :: SelectState(q.(routeVariation := key), policy,
                                                            states).sum <= limit) <==>
                PoolSize(QualityCount(costs), q.limits.variationPercent) <= SumRun(costs, limit))
  {
    hide QualityCount, SumLimit, PoolSize, SumRun, SelectState, Equals, DistinctBy;
    EqualsFirst(policy, states);
    var equal := Equals(policy, states);
    var costs, limit := CostsOf(equal, StateLegs), SumLimit(equal[0].sum);
    var n := PoolSize(QualityCount(costs), q.limits.variationPercent);
    PoolPassesExactly(costs, q.limits.variationPercent);
    if n <= SumRun(costs, limit) {
      forall key: seq<nat> -> nat ensures SelectState(q.(routeVariation := key), policy, states).sum <= limit {
        var i := SelectedAt(q.(routeVariation := key), policy, states);
        assert costs[i].sum <= limit;
      }
    }
    if forall key: seq<nat> -> nat :: SelectState(q.(routeVariation := key), policy, states).sum <= limit {
      forall i | 0 <= i < n ensures costs[i].sum <= limit {
        SeedSelects(q, policy, states, i);
        assert SelectState(q.(routeVariation := Preferring(equal[i].route)), policy, states).sum <= limit;
      }
    }
  }

  lemma SelectedAt(q: Problem, policy: AdditionPolicy, states: seq<GlobalState>) returns (i: nat)
    requires states != [] && 0 < q.limits.variationPercent <= 100
    ensures var equal := Equals(policy, states);
            && equal != [] && i < PoolSize(QualityCount(CostsOf(equal, StateLegs)),
                                           q.limits.variationPercent) <= |equal|
            && SelectState(q, policy, states) == equal[i]
  {
    hide QualityCount, PoolSize, SortBy, Equals;
    EqualsFirst(policy, states);
    var equal := Equals(policy, states);
    var selected := equal[..PoolSize(QualityCount(CostsOf(equal, StateLegs)), q.limits.variationPercent)];
    SortByMembers(selected, Variation(q.routeVariation));
    assert SelectState(q, policy, states) in SortBy(selected, Variation(q.routeVariation));
    i :| 0 <= i < |selected| && selected[i] == SelectState(q, policy, states);
  }

  function Preferring(route: seq<nat>): seq<nat> -> nat {
    (other: seq<nat>) => if other == route then 0 else 1
  }

  /** Some seed selects any given member of the pool. */
  lemma SeedSelects(q: Problem, policy: AdditionPolicy, states: seq<GlobalState>, i: nat)
    requires states != [] && 0 < q.limits.variationPercent <= 100 && DistinctBy(states, RouteOf)
    requires var equal := Equals(policy, states);
             equal != [] && i < PoolSize(QualityCount(CostsOf(equal, StateLegs)), q.limits.variationPercent)
    ensures SelectState(q.(routeVariation := Preferring(Equals(policy, states)[i].route)), policy, states) ==
            Equals(policy, states)[i]
  {
    hide QualityCount, PoolSize, SortBy, Equals;
    var equal := Equals(policy, states);
    EqualsDistinct(policy, states);
    var preferred := q.(routeVariation := Preferring(equal[i].route));
    var selected := equal[..PoolSize(QualityCount(CostsOf(equal, StateLegs)), q.limits.variationPercent)];
    var key := Variation(preferred.routeVariation);
    SortByMembers(selected, key);
    SortBySorts(selected, key);
    var sorted := SortBy(selected, key);
    assert SelectState(preferred, policy, states) == sorted[0];
    assert selected[i] in sorted;
    var k :| 0 <= k < |sorted| && sorted[k] == selected[i];
    assert KeyLe(key(sorted[0]), key(sorted[k]));
    assert sorted[0] in selected;
    var j :| 0 <= j < |selected| && selected[j] == sorted[0];
    assert RouteOf(equal[j]) == RouteOf(equal[i]);
    assert j == i;
  }

  lemma EqualsDistinct(policy: AdditionPolicy, states: seq<GlobalState>)
    requires states != [] && DistinctBy(states, RouteOf)
    ensures DistinctBy(Equals(policy, states), RouteOf)
  {
    hide SortBy;
    var key := (s: GlobalState) => StateKey(policy, s);
    SortByMembers(states, key);
    DistinctByPermutes(states, Ordered(policy, states), RouteOf);
    if policy.MinimumTotal? {
      BucketDistinct(Ordered(policy, states), AddedOf, Ordered(policy, states)[0].added, RouteOf);
    }
  }

  /** Retained states spell different routes. */
  lemma RetainDistinct(q: Problem, policy: AdditionPolicy, g: nat, beam: nat, expanded: seq<GlobalState>)
    requires AllGoodStates(q, policy, g, expanded)
    ensures DistinctBy(Retain(policy, beam, expanded), RouteOf)
  {
    hide GoodState, SortBy, DedupBy, PerBucket, Bucket, KeyLe;
    var key := (s: GlobalState) => StateKey(policy, s);
    var sorted := Ordered(policy, expanded);
    SortByMembers(expanded, key);
    SortBySorts(expanded, key);
    assert sorted == SortBy(expanded, key);
    forall x, y | x in sorted && y in sorted && RouteOf(x) == RouteOf(y) ensures key(x) == key(y) {
      SameRouteSameKey(q, policy, g, x, y);
    }
    DedupByDistinct(sorted, RouteOf, key);
    var states := DedupBy(sorted, RouteOf);
    if policy.MinimumTotal? {
      forall c: nat
        ensures var b := Bucket(states, AddedOf, c);
                DistinctBy(Beam(beam)(b), RouteOf) && forall s | s in Beam(beam)(b) :: s in b
      {
        BucketDistinct(states, AddedOf, c, RouteOf);
      }
      PerBucketDistinct(states, AddedOf, Beam(beam), policy.maximum + 1, RouteOf);
    }
  }

  lemma SameRouteSameKey(q: Problem, policy: AdditionPolicy, g: nat, a: GlobalState, b: GlobalState)
    requires GoodState(q, policy, g, a) && GoodState(q, policy, g, b) && a.route == b.route
    ensures StateKey(policy, a) == StateKey(policy, b)
  {
    hide Flatten, Assemble, GoodPrefix, PlanKey, Within;
    SameRouteSamePicks(q, policy, g, a, b);
  }

  // ----- when the pool is inside the sum band -----

  lemma {:induction false} AscendingSumsRun(costs: seq<Cost>, limit: real)
    requires forall i, j | 0 <= i <= j < |costs| :: costs[i].sum <= costs[j].sum
    ensures CountWithinSum(costs, limit) <= SumRun(costs, limit)
  {
    if costs != [] {
      AscendingSumsRun(costs[1..], limit);
      if costs[0].sum > limit {
        assert costs[1..] != [] ==> costs[1..][0].sum > limit;
      }
    }
  }

  lemma {:induction false} RunOfPrefix(costs: seq<Cost>, k: nat, limit: real)
    requires k <= |costs|
    ensures SumRun(costs[..k], limit) <= SumRun(costs, limit)
  {
    if k > 0 {
      assert costs[..k][1..] == costs[1..][..k - 1];
      RunOfPrefix(costs[1..], k - 1, limit);
    }
  }

  /** Without variation, or when the whole worst-leg band shares its worst leg,
      every pool member passes the sum test. */
  lemma EqualWorstLegsPass(policy: AdditionPolicy, states: seq<GlobalState>, percent: nat)
    requires states != [] && percent <= 100
    requires var costs := CostsOf(Equals(policy, states), StateLegs);
             costs != [] && (percent == 0 ||
             forall i | 0 <= i < WorstBand(costs, WorstLimit(costs[0].worst)) :: costs[i].worst == costs[0].worst)
    ensures var costs := CostsOf(Equals(policy, states), StateLegs);
            PoolSize(QualityCount(costs), percent) <= SumRun(costs, SumLimit(costs[0].sum))
  {
    hide Equals, WorstLimit;
    var equal := Equals(policy, states);
    var costs := CostsOf(equal, StateLegs);
    var band, limit := WorstBand(costs, WorstLimit(costs[0].worst)), SumLimit(costs[0].sum);
    assert SumRun(costs, limit) >= 1;
    if percent > 0 {
      EqualsSorted(policy, states);
      forall i, j | 0 <= i <= j < band ensures costs[..band][i].sum <= costs[..band][j].sum {
        assert KeyLe(StateKey(policy, equal[i]), StateKey(policy, equal[j]));
        SameRankCost(policy, states, i, j);
      }
      AscendingSumsRun(costs[..band], limit);
      RunOfPrefix(costs, band, limit);
    }
  }

  lemma SameRankCost(policy: AdditionPolicy, states: seq<GlobalState>, i: nat, j: nat)
    requires states != [] && i < |Equals(policy, states)| && j < |Equals(policy, states)|
    ensures StateKey(policy, Equals(policy, states)[i]).rank == StateKey(policy, Equals(policy, states)[j]).rank
  {
    hide Equals;
    EqualsFirst(policy, states);
    assert Equals(policy, states)[i] in Equals(policy, states) && Equals(policy, states)[j] in Equals(policy, states);
  }

  lemma EqualsSorted(policy: AdditionPolicy, states: seq<GlobalState>)
    requires states != []
    ensures SortedBy(Equals(policy, states), (s: GlobalState) => StateKey(policy, s))
  {
    hide SortBy, Bucket, KeyLe;
    var key := (s: GlobalState) => StateKey(policy, s);
    SortBySorts(states, key);
    assert SortedBy(Ordered(policy, states), key);
    BucketSorted(Ordered(policy, states), AddedOf, Ordered(policy, states)[0].added, key);
  }

  // ----- the planner -----

  /** No admissible insertion does better than `c`. */
  ghost predicate Beats(q: Problem, policy: AdditionPolicy, c: GlobalState, picks: seq<seq<nat>>)
    requires |picks| <= |q.gaps| && |picks| < |q.source|
  {
    && (policy.MinimumTotal? ==> c.added <= |Flatten(picks)|)
    && (q.limits.variationPercent == 0 ==> KeyLe(StateKey(policy, c), PlanKey(q, policy, picks)))
    && ((policy.MinimumTotal? ==> |Flatten(picks)| == c.added) ==>
          c.worst <= WorstLimit(PlanKey(q, policy, picks).worst))
  }

  lemma ChosenBeats(q: Problem, policy: AdditionPolicy, states: seq<GlobalState>, c: GlobalState, picks: seq<seq<nat>>)
    requires AllGoodStates(q, policy, |q.gaps|, states) && Covers(q, policy, |q.gaps|, states)
    requires WellChosen(q, policy, states, c) && Target(q, policy, picks)
    ensures WellFormed(q) && |picks| == |q.gaps| && Beats(q, policy, c, picks)
  {
    hide GoodPrefix, KeyLe, WorstLimit, PlanKey, Within, Assemble, Flatten;
    GoodPrefixSize(q, picks);
    assert picks[..|q.gaps|] == picks;
    assert HasPicks(states, picks);
    var s :| s in states && s.picks == picks;
    assert GoodState(q, policy, |q.gaps|, s);
    assert StateKey(policy, s) == PlanKey(q, policy, picks);
  }

  /** What the planner found, judged against every complete good plan. */
  ghost predicate PlanAnswer(q: Problem, policy: AdditionPolicy, cut: bool, result: PlanResult) {
    match result
    case Planned(plan) =>
      && GoodState(q, policy, |q.gaps|, plan) && GoodPlan(q, plan.picks)
      && (!cut ==>
            forall picks: seq<seq<nat>> | GoodPlan(q, picks) && Within(policy, picks) :: Beats(q, policy, plan, picks))
    case Failed(PathFailed(error)) =>
      error == AnchorsMustDiffer && exists g :: 0 <= g < |q.gaps| && q.gaps[g].left == q.gaps[g].right
    case Failed(FinalRouteInvalid) => q.source != [] && !HeadClear(q)
    case Failed(NoCompleteRoute(gap)) =>
      gap < |q.gaps| &&
      (!cut ==> forall picks: seq<seq<nat>> | GoodPlan(q, picks) :: !Within(policy, picks))
    case _ => false
  }

  function StartingState(q: Problem): GlobalState
    requires q.source != []
  {
    GlobalState([q.source[0]], [], 0, 0.0, 0.0, 0.0)
  }

  lemma StartIsGood(q: Problem, policy: AdditionPolicy)
    requires WellFormed(q)
    ensures AllGoodStates(q, policy, 0, [StartingState(q)])
    ensures Covers(q, policy, 0, [StartingState(q)])
  {
    EmptyPlanIsGood(q);
    var s := StartingState(q);
    forall picks: seq<seq<nat>> | Target(q, policy, picks) ensures HasPicks([s], picks[..0]) {
      assert s in [s] && s.picks == picks[..0];
    }
  }

  lemma GoodPlanIsTarget(q: Problem, policy: AdditionPolicy, picks: seq<seq<nat>>)
    requires GoodPlan(q, picks) && Within(policy, picks)
    ensures Target(q, policy, picks)
  {
    hide GoodPlan, GoodPrefix, Within, HeadClear;
    GoodPlanIsGoodPrefix(q, picks);
  }

  lemma NothingCovered(q: Problem, policy: AdditionPolicy, g: nat)
    requires g <= |q.gaps| && Covers(q, policy, g, [])
    ensures forall picks: seq<seq<nat>> | GoodPlan(q, picks) :: !Within(policy, picks)
  {
    hide GoodPlan, Within, GoodPrefix;
    forall picks: seq<seq<nat>> | GoodPlan(q, picks) ensures !Within(policy, picks) {
      if Within(policy, picks) {
        GoodPlanIsTarget(q, policy, picks);
        assert false;
      }
    }
  }

  /** The bound for the source after gap `g`, when the policy needs one. */
  method MinimumAfter(q: Problem, policy: AdditionPolicy, g: nat) returns (minimum: nat)
    requires ValidProblem(q) && g < |q.gaps|
    ensures minimum == Reserve(q, policy, g)
    ensures policy.ExactPerGap? ==> minimum == 0
    ensures policy.MinimumTotal? ==>
              forall additions: seq<nat> | Separates(q.policy, q.source[g + 1..], additions) ::
                  minimum <= Total(additions)
  {
    hide Separates;
    minimum := 0;
    if policy.MinimumTotal? {
      SuffixValid(q, g + 1);
      var spacing, _ := MinimumRepeatSpacingAdditions(q.policy, q.source[g + 1..]);
      minimum := spacing.additions;
    }
  }

  lemma SuffixValid(q: Problem, from: nat)
    requires ValidProblem(q) && from <= |q.source|
    ensures ValidIndices(q.policy, q.source[from..])
  {
    assert q.source == q.source[..from] + q.source[from..];
    ValidIndicesJoin(q.policy, q.source[..from], q.source[from..]);
  }

  lemma FitsBeam(q: Problem, policy: AdditionPolicy, g: nat, states: nat, expanded: nat)
    requires Roomy(q, Most(policy)) && g < |q.gaps|
    requires states <= Power(Geometric(MostCandidates(q.gaps), Most(policy)), g)
    requires expanded <= states * Geometric(MostCandidates(q.gaps), Most(policy))
    ensures expanded <= Power(Geometric(MostCandidates(q.gaps), Most(policy)), g + 1) <= q.limits.beamWidth
  {
    hide Geometric, Roomy;
    var size := Geometric(MostCandidates(q.gaps), Most(policy));
    RoomyBeam(q, Most(policy), g + 1);
    MulMonotone(states, Power(size, g), size, size);
  }

  lemma CountsAdmitted(q: Problem, policy: AdditionPolicy, g: nat, states: seq<GlobalState>)
    requires AllGoodStates(q, policy, g, states)
    ensures policy.MinimumTotal? ==> forall s | s in states :: s.added <= policy.maximum
  {
    hide GoodPrefix, PlanKey, Assemble, Flatten;
  }

  lemma Conclude(q: Problem, policy: AdditionPolicy, cut: bool, states: seq<GlobalState>)
    requires WellFormed(q) && states != [] && q.limits.variationPercent <= 100
    requires AllGoodStates(q, policy, |q.gaps|, states) && HeadClear(q)
    requires !cut ==> Covers(q, policy, |q.gaps|, states)
    ensures PlanAnswer(q, policy, cut, Planned(SelectState(q, policy, states)))
  {
    hide GoodPrefix, GoodPlan, SelectState, Covers, Roomy, Within, HeadClear, Beats, PlanKey, Flatten, Assemble,
      KeyLe, WorstLimit;
    var c := SelectState(q, policy, states);
    SelectIsWellChosen(q, policy, states);
    assert GoodState(q, policy, |q.gaps|, c);
    GoodPlanIsGoodPrefix(q, c.picks);
    if !cut {
      forall picks: seq<seq<nat>> | GoodPlan(q, picks) && Within(policy, picks)
        ensures |picks| <= |q.gaps| && |picks| < |q.source| && Beats(q, policy, c, picks)
      {
        GoodPlanIsTarget(q, policy, picks);
        ChosenBeats(q, policy, states, c, picks);
      }
    }
  }

  // ----- the generations -----

  /** The states retained after `g` gaps. */
  ghost function Generation(q: Problem, policy: AdditionPolicy, g: nat): seq<GlobalState>
    requires WellFormed(q) && g <= |q.gaps|
  {
    if g == 0 then [StartingState(q)]
    else Retain(policy, q.limits.beamWidth, Expansion(q, policy, g - 1, Generation(q, policy, g - 1)))
  }

  /** No limit drops anything at gap `g`: no path search, not the beam. */
  ghost predicate GapUncut(q: Problem, policy: AdditionPolicy, g: nat)
    requires WellFormed(q) && g < |q.gaps|
  {
    var states := Generation(q, policy, g);
    StatesUncut(q, policy, g, states) && BeamUncut(policy, q.limits.beamWidth, Expansion(q, policy, g, states))
  }

  ghost predicate UncutTo(q: Problem, policy: AdditionPolicy, g: nat)
    requires WellFormed(q) && g <= |q.gaps|
  {
    forall k | 0 <= k < g :: GapUncut(q, policy, k)
  }

  /** No limit drops anything at any gap. */
  ghost predicate PlanUncut(q: Problem, policy: AdditionPolicy)
    requires WellFormed(q)
  {
    UncutTo(q, policy, |q.gaps|)
  }

  predicate AnchorsDiffer(q: Problem, g: nat)
    requires g <= |q.gaps|
  {
    forall k {:trigger q.gaps[k]} | 0 <= k < g :: q.gaps[k].left != q.gaps[k].right
  }

  lemma {:induction false} GenerationIsGood(q: Problem, policy: AdditionPolicy, g: nat)
    requires ValidProblem(q) && g <= |q.gaps|
    ensures AllGoodStates(q, policy, g, Generation(q, policy, g))
    ensures Roomy(q, Most(policy)) ==>
              UncutTo(q, policy, g) &&
              |Generation(q, policy, g)| <= Power(Geometric(MostCandidates(q.gaps), Most(policy)), g)
  {
    hide AllGoodStates, Roomy, Retain, Expansion, StatesUncut, BeamUncut, Power, Geometric, ValidProblem;
    var size := Geometric(MostCandidates(q.gaps), Most(policy));
    WellFormedSize(q);
    if g == 0 {
      StartIsGood(q, policy);
      PowerZero(size);
    } else {
      var states := Generation(q, policy, g - 1);
      GenerationIsGood(q, policy, g - 1);
      ExpansionIsGood(q, policy, g - 1, states);
      var expanded := Expansion(q, policy, g - 1, states);
      RetainSound(q, policy, g, q.limits.beamWidth, expanded);
      RetainMembers(policy, q.limits.beamWidth, expanded);
      if Roomy(q, Most(policy)) {
        RoomyExpansion(q, policy, g - 1, states);
        FitsBeam(q, policy, g - 1, |states|, |expanded|);
        SmallEnoughForTheBeam(policy, q.limits.beamWidth, expanded);
        assert GapUncut(q, policy, g - 1);
      }
    }
  }

  /** Uncut, the retained states cover every admissible insertion. */
  lemma {:induction false} GenerationCovers(q: Problem, policy: AdditionPolicy, g: nat)
    requires ValidProblem(q) && g <= |q.gaps| && UncutTo(q, policy, g) && AnchorsDiffer(q, g)
    ensures Covers(q, policy, g, Generation(q, policy, g))
  {
    hide AllGoodStates, Roomy, Retain, Expansion, StatesUncut, BeamUncut, ValidProblem, Covers;
    WellFormedSize(q);
    if g == 0 {
      StartIsGood(q, policy);
    } else {
      var states := Generation(q, policy, g - 1);
      assert GapUncut(q, policy, g - 1);
      assert q.gaps[g - 1].left != q.gaps[g - 1].right;
      GenerationCovers(q, policy, g - 1);
      GenerationIsGood(q, policy, g - 1);
      ExpansionIsGood(q, policy, g - 1, states);
      ExpansionCovers(q, policy, g - 1, states);
      RetainCovers(q, policy, g, q.limits.beamWidth, Expansion(q, policy, g - 1, states));
    }
  }

  /** The final choice is made among different routes. */
  lemma GenerationDistinct(q: Problem, policy: AdditionPolicy, g: nat)
    requires ValidProblem(q) && g <= |q.gaps|
    ensures DistinctBy(Generation(q, policy, g), RouteOf)
  {
    hide Retain, Expansion, ValidProblem, AllGoodStates;
    WellFormedSize(q);
    if g > 0 {
      GenerationIsGood(q, policy, g - 1);
      ExpansionIsGood(q, policy, g - 1, Generation(q, policy, g - 1));
      RetainDistinct(q, policy, g, q.limits.beamWidth, Expansion(q, policy, g - 1, Generation(q, policy, g - 1)));
    }
  }

  /** Once no state is left, nothing more is dropped. */
  lemma {:induction false} NothingGoesOn(q: Problem, policy: AdditionPolicy, g: nat, later: nat)
    requires WellFormed(q) && g <= later <= |q.gaps| && Generation(q, policy, g) == []
    ensures Generation(q, policy, later) == []
    ensures UncutTo(q, policy, g) <==> UncutTo(q, policy, later)
  {
    hide StatesUncut, BeamUncut, Retain, Expansion;
    if g < later {
      NothingGoesOn(q, policy, g, later - 1);
      NothingExpands(q, policy, later - 1);
    }
  }

  lemma NothingExpands(q: Problem, policy: AdditionPolicy, g: nat)
    requires WellFormed(q) && g < |q.gaps|
    ensures Expansion(q, policy, g, []) == [] && StatesUncut(q, policy, g, [])
    ensures Retain(policy, q.limits.beamWidth, []) == [] && BeamUncut(policy, q.limits.beamWidth, [])
  {
    RetainMembers(policy, q.limits.beamWidth, []);
    SmallEnoughForTheBeam(policy, q.limits.beamWidth, []);
  }

  /** The planner's answer once it stands before gap `g` with states left. */
  ghost function OutcomeFrom(q: Problem, policy: AdditionPolicy, budget: nat, g: nat): PlanResult
    requires WellFormed(q) && g <= |q.gaps| && q.limits.variationPercent <= 100
    decreases |q.gaps| - g
  {
    if g == |q.gaps| then
      var proven := KeepValid(q, policy, budget, Generation(q, policy, g));
      if proven == [] then Failed(FinalRouteInvalid) else Planned(SelectState(q, policy, proven))
    else if q.gaps[g].left == q.gaps[g].right then Failed(PathFailed(AnchorsMustDiffer))
    else if Generation(q, policy, g + 1) == [] then Failed(NoCompleteRoute(g))
    else OutcomeFrom(q, policy, budget, g + 1)
  }

  /** What the planner returns. */
  ghost function Outcome(q: Problem, policy: AdditionPolicy, budget: nat): PlanResult
    requires WellFormed(q) && q.limits.variationPercent <= 100
  {
    OutcomeFrom(q, policy, budget, 0)
  }

  /** Whatever the limits, a returned plan is good and the final proof fails
      only on the head of the route.  When no limit drops anything the answer
      is the best of all good plans, and a refusal means there is none. */
  lemma {:induction false} OutcomeAnswers(q: Problem, policy: AdditionPolicy, budget: nat, g: nat)
    requires ValidProblem(q) && g <= |q.gaps| && AnchorsDiffer(q, g) && Generation(q, policy, g) != []
    requires policy.MinimumTotal? ==> policy.maximum <= budget
    ensures PlanAnswer(q, policy, !PlanUncut(q, policy), OutcomeFrom(q, policy, budget, g))
    decreases |q.gaps| - g
  {
    hide AllGoodStates, GoodPlan, Covers, Within, HeadClear, SelectState, Retain, FinalValid, KeepValid, ValidProblem,
      GapUncut, Generation, PlanAnswer;
    WellFormedSize(q);
    if g == |q.gaps| {
      GenerationIsGood(q, policy, g);
      FinishedAnswers(q, policy, budget);
    } else if q.gaps[g].left == q.gaps[g].right {
      AnchorsAnswer(q, policy, g);
    } else if Generation(q, policy, g + 1) == [] {
      NothingGoesOn(q, policy, g + 1, |q.gaps|);
      StoppedAnswers(q, policy, g);
    } else {
      OutcomeAnswers(q, policy, budget, g + 1);
    }
  }

  lemma AnchorsAnswer(q: Problem, policy: AdditionPolicy, g: nat)
    requires WellFormed(q) && g < |q.gaps| && q.gaps[g].left == q.gaps[g].right
    ensures PlanAnswer(q, policy, !PlanUncut(q, policy), Failed(PathFailed(AnchorsMustDiffer)))
  {
  }

  lemma StoppedAnswers(q: Problem, policy: AdditionPolicy, g: nat)
    requires ValidProblem(q) && g < |q.gaps| && AnchorsDiffer(q, g + 1) && Generation(q, policy, g + 1) == []
    requires UncutTo(q, policy, g + 1) <==> PlanUncut(q, policy)
    ensures PlanAnswer(q, policy, !PlanUncut(q, policy), Failed(NoCompleteRoute(g)))
  {
    hide GoodPlan, Covers, Within, GapUncut, Generation, ValidProblem;
    WellFormedSize(q);
    if PlanUncut(q, policy) {
      GenerationCovers(q, policy, g + 1);
      NothingCovered(q, policy, g + 1);
    }
  }

  lemma FinishedAnswers(q: Problem, policy: AdditionPolicy, budget: nat)
    requires ValidProblem(q) && AnchorsDiffer(q, |q.gaps|) && Generation(q, policy, |q.gaps|) != []
    requires policy.MinimumTotal? ==> policy.maximum <= budget
    ensures PlanAnswer(q, policy, !PlanUncut(q, policy), OutcomeFrom(q, policy, budget, |q.gaps|))
  {
    hide AllGoodStates, GoodPlan, Covers, Within, SelectState, FinalValid, KeepValid, GapUncut, Generation,
      ValidProblem, GoodState, HeadClear;
    WellFormedSize(q);
    var states := Generation(q, policy, |q.gaps|);
    GenerationIsGood(q, policy, |q.gaps|);
    KeepValidAllOrNothing(q, policy, budget, states);
    if PlanUncut(q, policy) {
      GenerationCovers(q, policy, |q.gaps|);
    }
    if HeadClear(q) {
      Conclude(q, policy, !PlanUncut(q, policy), states);
    }
  }

  /** Plans all gaps, one generation after the other.  `cut` says exactly
      whether some limit dropped something. */
  method PlanGlobal(q: Problem, policy: AdditionPolicy, budget: nat) returns (result: PlanResult, ghost cut: bool)
    requires ValidProblem(q)
    requires policy.MinimumTotal? ==> policy.maximum <= budget
    ensures WellFormed(q) && q.limits.variationPercent <= 100 && result == Outcome(q, policy, budget)
    ensures cut <==> !PlanUncut(q, policy)
    ensures PlanAnswer(q, policy, cut, result)
    ensures Roomy(q, Most(policy)) ==> !cut
    ensures PlanAnswer(q, policy, true, result)
    ensures Roomy(q, Most(policy)) ==> PlanAnswer(q, policy, false, result)
  {
    hide BeamUncut, GoodState, Covers, Roomy, AllGoodStates, SelectState, Retain, StatesUncut, StateNext, Reserve,
      FinalValid, KeepValid, PlanAnswer, ValidProblem, WellFormed;
    WellFormedSize(q);
    OutcomeAnswers(q, policy, budget, 0);
    AnswerWeakens(q, policy, !PlanUncut(q, policy), Outcome(q, policy, budget));
    GenerationIsGood(q, policy, |q.gaps|);
    var states := [StartingState(q)];
    cut := false;
    var g := 0;
    while g < |q.gaps|
      invariant 0 <= g <= |q.gaps|
      invariant states != [] && states == Generation(q, policy, g)
      invariant Outcome(q, policy, budget) == OutcomeFrom(q, policy, budget, g)
      invariant cut <==> !UncutTo(q, policy, g)
    {
      var minimumAfter := MinimumAfter(q, policy, g);
      GenerationIsGood(q, policy, g);
      var failure, expanded;
      ghost var cutHere;
      failure, expanded, cutHere := ExpandAll(q, policy, g, states, minimumAfter);
      if failure.Some? {
        ExpansionIsGood(q, policy, g, states);
        NothingExpands(q, policy, g);
        UncutStep(q, policy, g);
        NothingGoesOn(q, policy, g + 1, |q.gaps|);
        return Failed(PathFailed(failure.value)), cut;
      }
      CountsAdmitted(q, policy, g + 1, expanded);
      var kept := RetainStates(policy, q.limits.beamWidth, expanded);
      UncutStep(q, policy, g);
      cut := cut || cutHere || !BeamUncut(policy, q.limits.beamWidth, expanded);
      if kept == [] {
        NothingGoesOn(q, policy, g + 1, |q.gaps|);
        return Failed(NoCompleteRoute(g)), cut;
      }
      states := kept;
      g := g + 1;
    }
    var proven := KeepValid(q, policy, budget, states);
    if proven == [] {
      return Failed(FinalRouteInvalid), cut;
    }
    return Planned(SelectState(q, policy, proven)), cut;
  }

  lemma UncutStep(q: Problem, policy: AdditionPolicy, g: nat)
    requires WellFormed(q) && g < |q.gaps|
    ensures UncutTo(q, policy, g + 1) <==> UncutTo(q, policy, g) && GapUncut(q, policy, g)
  {
    hide GapUncut;
  }

  lemma AnswerWeakens(q: Problem, policy: AdditionPolicy, cut: bool, result: PlanResult)
    requires PlanAnswer(q, policy, cut, result)
    ensures PlanAnswer(q, policy, true, result)
  {
    hide GoodState, GoodPlan, Within, Beats, HeadClear;
  }

  lemma WellFormedSize(q: Problem)
    requires ValidProblem(q)
    ensures |q.source| >= 2 && |q.gaps| == |q.source| - 1 && WellFormed(q)
    ensures q.limits.variationPercent <= 100
  {
  }

  // ----- the two requests -----

  lemma AnswerIsNoRefusal(q: Problem, policy: AdditionPolicy, cut: bool, result: PlanResult)
    requires PlanAnswer(q, policy, cut, result)
    ensures result.Failed? ==>
              !result.error.InvalidSource? && !result.error.InvalidConfig? && !result.error.InvalidIndex?
  {
  }

  lemma RepairIsNoRefusal(q: Problem, budget: nat, cut: bool, result: PlanResult)
    requires RepairAnswer(q, budget, cut, result)
    ensures result.Failed? ==>
              !result.error.InvalidSource? && !result.error.InvalidConfig? && !result.error.InvalidIndex?
  {
  }

  /** The same number of tracks in every gap. */
  method PlanFixedGapCount(q: Problem, count: nat) returns (result: PlanResult, ghost cut: bool)
    ensures RefusedRightly(q, 1 <= count <= 8, result)
    ensures 1 <= count <= 8 && ValidProblem(q) ==> PlanAnswer(q, ExactPerGap(count), cut, result)
    ensures 1 <= count <= 8 && ValidProblem(q) ==>
              && WellFormed(q) && q.limits.variationPercent <= 100
              && result == Outcome(q, ExactPerGap(count), 0)
              && (cut <==> !PlanUncut(q, ExactPerGap(count)))
    ensures 1 <= count <= 8 && ValidProblem(q) && Roomy(q, count) ==>
              PlanAnswer(q, ExactPerGap(count), false, result)
    ensures Roomy(q, count) ==> !cut
  {
    hide PlanAnswer, ValidateProblem, ValidProblem, WellFormed, Outcome, PlanUncut, Roomy, TracksKnown, FirstUnknown,
      LimitsHold, GapsMatchSource;
    ValidationDecides(q, 1 <= count <= 8);
    var invalid := ValidateProblem(q, 1 <= count <= 8);
    if invalid.Some? {
      return Failed(invalid.value), false;
    }
    result, cut := PlanGlobal(q, ExactPerGap(count), 0);
    AnswerIsNoRefusal(q, ExactPerGap(count), cut, result);
  }

  /** What the repair found: a good plan within the budget that, unless a limit
      cut something, no good plan undercuts; a refusal that then means none fits. */
  ghost predicate RepairAnswer(q: Problem, budget: nat, cut: bool, result: PlanResult) {
    match result
    case Planned(plan) =>
      && GoodPlan(q, plan.picks) && plan.route == Assemble(q.source, plan.picks)
      && plan.added == |Flatten(plan.picks)| <= budget
      && (!cut ==>
            forall picks: seq<seq<nat>> | GoodPlan(q, picks) ::
              && plan.added <= |Flatten(picks)|
              && (|Flatten(picks)| == plan.added ==> Beats(q, MinimumTotal(plan.added), plan, picks)))
    case Failed(PathFailed(error)) =>
      error == AnchorsMustDiffer && exists g :: 0 <= g < |q.gaps| && q.gaps[g].left == q.gaps[g].right
    case Failed(NoCompleteRoute(_)) =>
      !cut ==> forall picks: seq<seq<nat>> | GoodPlan(q, picks) :: |Flatten(picks)| > budget
    case _ => false
  }

  ghost predicate NonePlanned(q: Problem, below: nat) {
    forall picks: seq<seq<nat>> | GoodPlan(q, picks) :: below <= |Flatten(picks)|
  }

  lemma SpacingIsNecessary(q: Problem, minimum: nat)
    requires forall additions: seq<nat> | Separates(q.policy, q.source, additions) :: minimum <= Total(additions)
    ensures NonePlanned(q, minimum)
  {
    hide GoodPlan, GoodPrefix, Separates, HeadClear;
    forall picks: seq<seq<nat>> | GoodPlan(q, picks) ensures minimum <= |Flatten(picks)| {
      GoodPlanIsGoodPrefix(q, picks);
      GoodPrefixSize(q, picks);
      GoodPrefixSeparates(q, picks);
      assert q.source[..|picks| + 1] == q.source;
      LengthsBefore(picks, |picks|);
      assert picks[..|picks|] == picks;
    }
  }

  lemma RoomyShrinks(q: Problem, most: nat, less: nat)
    requires Roomy(q, most) && less <= most && q.limits.alternativesPerGap > 0
    ensures Roomy(q, less)
  {
    var widest := MostCandidates(q.gaps);
    if widest > 0 {
      PowerMonotone(widest, widest, less, most);
    } else {
      assert Power(0, less) <= 1;
    }
    GeometricGrows(widest, less, most);
    PowerBase(Geometric(widest, less), Geometric(widest, most), |q.gaps|);
  }

  /** A failed budget leaves no good plan within it. */
  lemma BudgetFailed(q: Problem, budget: nat, result: PlanResult)
    requires PlanAnswer(q, MinimumTotal(budget), false, result) && result.Failed? && !result.error.PathFailed?
    ensures NonePlanned(q, budget + 1)
  {
    hide GoodPlan, GoodPrefix, Roomy, HeadClear;
    forall picks: seq<seq<nat>> | GoodPlan(q, picks) ensures budget + 1 <= |Flatten(picks)| {
      GoodPlanIsGoodPrefix(q, picks);
      assert !Within(MinimumTotal(budget), picks);
    }
  }

  lemma RepairPlanned(q: Problem, budget: nat, most: nat, cutHere: bool, cut: bool, plan: GlobalState)
    requires PlanAnswer(q, MinimumTotal(budget), cutHere, Planned(plan)) && budget <= most
    requires !cut ==> !cutHere && NonePlanned(q, budget)
    ensures RepairAnswer(q, most, cut, Planned(plan))
  {
    hide GoodPlan, GoodPrefix, Roomy, KeyLe, WorstLimit;
    assert GoodState(q, MinimumTotal(budget), |q.gaps|, plan);
    if !cut {
      forall picks: seq<seq<nat>> | GoodPlan(q, picks)
        ensures |picks| <= |q.gaps| && |picks| < |q.source|
        ensures plan.added <= |Flatten(picks)|
        ensures |Flatten(picks)| == plan.added ==> Beats(q, MinimumTotal(plan.added), plan, picks)
      {
        GoodPlanSize(q, picks);
        if |Flatten(picks)| <= budget {
          assert Within(MinimumTotal(budget), picks);
          assert Beats(q, MinimumTotal(budget), plan, picks);
        }
      }
    }
  }

  lemma GoodPlanSize(q: Problem, picks: seq<seq<nat>>)
    requires GoodPlan(q, picks)
    ensures |picks| == |q.gaps| && |picks| < |q.source|
  {
  }

  /** The next budget is tried after this answer. */
  predicate Retries(result: PlanResult) {
    result.Failed? && (result.error.NoCompleteRoute? || result.error.FinalRouteInvalid?)
  }

  function LastGap(q: Problem): nat {
    Minus(|q.gaps|, 1)
  }

  /** The answer of the budgets from `budget` on. */
  ghost function RepairFrom(q: Problem, most: nat, budget: nat): PlanResult
    requires WellFormed(q) && q.limits.variationPercent <= 100
    decreases if budget > most then 0 else most + 1 - budget
  {
    hide *;
    if budget > most then Failed(NoCompleteRoute(LastGap(q)))
    else
      var attempt := Outcome(q, MinimumTotal(budget), most);
      if Retries(attempt) then RepairFrom(q, most, budget + 1) else attempt
  }

  /** No limit drops anything in any budget that is tried. */
  ghost predicate RepairUncutFrom(q: Problem, most: nat, budget: nat)
    requires WellFormed(q) && q.limits.variationPercent <= 100
    decreases if budget > most then 0 else most + 1 - budget
  {
    hide *;
    if budget > most then true
    else
      var attempt := Outcome(q, MinimumTotal(budget), most);
      PlanUncut(q, MinimumTotal(budget)) && (Retries(attempt) ==> RepairUncutFrom(q, most, budget + 1))
  }

  /** What the repair returns: budgets from the spacing bound upwards. */
  ghost function Repaired(q: Problem, most: nat): PlanResult
    requires WellFormed(q) && q.limits.variationPercent <= 100
  {
    var minimum := LeastAdditions(q.policy, q.source);
    if minimum > most then Failed(NoCompleteRoute(0)) else RepairFrom(q, most, minimum)
  }

  ghost predicate RepairUncut(q: Problem, most: nat)
    requires WellFormed(q) && q.limits.variationPercent <= 100
  {
    RepairUncutFrom(q, most, LeastAdditions(q.policy, q.source))
  }

  lemma OutcomeIsAnswer(q: Problem, policy: AdditionPolicy, budget: nat)
    requires ValidProblem(q) && (policy.MinimumTotal? ==> policy.maximum <= budget)
    ensures WellFormed(q) && q.limits.variationPercent <= 100
    ensures PlanAnswer(q, policy, !PlanUncut(q, policy), Outcome(q, policy, budget))
    ensures Roomy(q, Most(policy)) ==> PlanUncut(q, policy)
  {
    hide ValidProblem, PlanAnswer, Roomy, GapUncut, WellFormed, AllGoodStates;
    WellFormedSize(q);
    OutcomeAnswers(q, policy, budget, 0);
    GenerationIsGood(q, policy, |q.gaps|);
  }

  /** With nothing planned below `budget`, the first budget that succeeds is the minimum. */
  lemma {:induction false} RepairAnswers(q: Problem, most: nat, budget: nat, cut: bool)
    requires ValidProblem(q) && (!cut ==> NonePlanned(q, budget))
    ensures WellFormed(q) && q.limits.variationPercent <= 100
    ensures RepairUncutFrom(q, most, budget) || cut ==> RepairAnswer(q, most, cut, RepairFrom(q, most, budget))
    ensures Roomy(q, most) ==> RepairUncutFrom(q, most, budget)
    decreases Minus(most + 1, budget)
  {
    hide PlanAnswer, ValidProblem, Roomy, NonePlanned, RepairAnswer, WellFormed, Outcome, PlanUncut;
    WellFormedSize(q);
    if budget > most {
      NonePlannedRefuses(q, budget, most, cut, LastGap(q));
    } else {
      var policy := MinimumTotal(budget);
      var attempt := Outcome(q, policy, most);
      OutcomeIsAnswer(q, policy, most);
      if Roomy(q, most) {
        AlternativesPositive(q);
        RoomyShrinks(q, most, budget);
      }
      if Retries(attempt) {
        RepairAnswers(q, most, budget + 1, true);
        if !cut && PlanUncut(q, policy) {
          BudgetFailed(q, budget, attempt);
          RepairAnswers(q, most, budget + 1, false);
        }
      } else if PlanUncut(q, policy) || cut {
        RepairSettled(q, budget, most, !PlanUncut(q, policy), cut, attempt);
      }
    }
  }

  /** A repair that finds nothing blames the last gap, or the first when the
      spacing bound alone exceeds the budget. */
  lemma {:induction false} RepairBlocks(q: Problem, most: nat, budget: nat)
    requires WellFormed(q) && q.limits.variationPercent <= 100
    ensures var result := RepairFrom(q, most, budget);
            result.Failed? && result.error.NoCompleteRoute? ==> result.error.blockingGap == |q.gaps| - 1
    decreases if budget > most then 0 else most + 1 - budget
  {
    hide Outcome;
    if budget <= most && Retries(Outcome(q, MinimumTotal(budget), most)) {
      RepairBlocks(q, most, budget + 1);
    }
  }

  lemma AlternativesPositive(q: Problem)
    requires ValidProblem(q)
    ensures q.limits.alternativesPerGap > 0
  {
  }

  lemma RepairSettled(q: Problem, budget: nat, most: nat, cutHere: bool, cut: bool, attempt: PlanResult)
    requires PlanAnswer(q, MinimumTotal(budget), cutHere, attempt) && budget <= most && !Retries(attempt)
    requires !cut ==> !cutHere && NonePlanned(q, budget)
    ensures RepairAnswer(q, most, cut, attempt)
  {
    hide PlanAnswer, NonePlanned, RepairAnswer;
    if attempt.Planned? {
      RepairPlanned(q, budget, most, cutHere, cut, attempt.plan);
    } else {
      RepairFailed(q, budget, most, cutHere, cut, attempt);
    }
  }

  /** Repeat-window repair: budgets are tried from the spacing bound upwards.
      `cut` says exactly whether some limit dropped something on the way. */
  method PlanRepeatWindowRepair(q: Problem, maxAddedTracks: nat) returns (result: PlanResult, ghost cut: bool)
    ensures RefusedRightly(q, maxAddedTracks > 0, result)
    ensures maxAddedTracks > 0 && ValidProblem(q) ==>
              && WellFormed(q) && q.limits.variationPercent <= 100
              && result == Repaired(q, maxAddedTracks)
              && (result.Failed? && result.error.NoCompleteRoute? ==>
                    result.error.blockingGap ==
                    if LeastAdditions(q.policy, q.source) > maxAddedTracks then 0 else |q.source| - 2)
              && (cut <==> !RepairUncut(q, maxAddedTracks))
    ensures maxAddedTracks > 0 && ValidProblem(q) ==> RepairAnswer(q, maxAddedTracks, cut, result)
    ensures maxAddedTracks > 0 && ValidProblem(q) && Roomy(q, maxAddedTracks) ==>
              !cut && RepairAnswer(q, maxAddedTracks, false, result)
  {
    hide PlanAnswer, ValidateProblem, ValidProblem, Roomy, Separates, WellFormed, RepairAnswer, Outcome, PlanUncut,
      ValidIndices, TracksKnown, FirstUnknown, LimitsHold, GapsMatchSource;
    ValidationDecides(q, maxAddedTracks > 0);
    cut := false;
    var invalid := ValidateProblem(q, maxAddedTracks > 0);
    if invalid.Some? {
      return Failed(invalid.value), cut;
    }
    WellFormedSize(q);
    RepairedIsAnswer(q, maxAddedTracks);
    RepairIsNoRefusal(q, maxAddedTracks, !RepairUncut(q, maxAddedTracks), Repaired(q, maxAddedTracks));
    RepairBlocks(q, maxAddedTracks, LeastAdditions(q.policy, q.source));
    SourceValid(q);
    var spacing, _ := MinimumRepeatSpacingAdditions(q.policy, q.source);
    var minimum := spacing.additions;
    if minimum > maxAddedTracks {
      return Failed(NoCompleteRoute(0)), cut;
    }
    var budget := minimum;
    while budget <= maxAddedTracks
      invariant minimum <= budget <= maxAddedTracks + 1
      invariant Repaired(q, maxAddedTracks) == RepairFrom(q, maxAddedTracks, budget)
      invariant RepairUncut(q, maxAddedTracks) <==> !cut && RepairUncutFrom(q, maxAddedTracks, budget)
    {
      var attempt;
      ghost var cutHere;
      attempt, cutHere := PlanGlobal(q, MinimumTotal(budget), maxAddedTracks);
      cut := cut || cutHere;
      if !Retries(attempt) {
        return attempt, cut;
      }
      budget := budget + 1;
    }
    return Failed(NoCompleteRoute(LastGap(q))), cut;
  }

  lemma SourceValid(q: Problem)
    requires ValidProblem(q)
    ensures ValidIndices(q.policy, q.source)
  {
  }

  lemma RepairedIsAnswer(q: Problem, most: nat)
    requires ValidProblem(q)
    ensures WellFormed(q) && q.limits.variationPercent <= 100
    ensures RepairAnswer(q, most, !RepairUncut(q, most), Repaired(q, most))
    ensures Roomy(q, most) ==> RepairUncut(q, most)
  {
    hide ValidProblem, Roomy, Separates, WellFormed, RepairAnswer, RepairFrom, RepairUncutFrom, NonePlanned;
    WellFormedSize(q);
    var minimum := LeastAdditions(q.policy, q.source);
    SpacingIsNecessary(q, minimum);
    var cut := !RepairUncut(q, most);
    RepairAnswers(q, most, minimum, cut);
    if minimum > most {
      NonePlannedRefuses(q, minimum, most, cut, 0);
    }
  }

  lemma NonePlannedRefuses(q: Problem, below: nat, budget: nat, cut: bool, gap: nat)
    requires !cut ==> NonePlanned(q, below)
    requires below > budget
    ensures RepairAnswer(q, budget, cut, Failed(NoCompleteRoute(gap)))
  {
    hide GoodPlan, Roomy;
  }

  lemma RepairFailed(q: Problem, budget: nat, most: nat, cutHere: bool, cut: bool, result: PlanResult)
    requires PlanAnswer(q, MinimumTotal(budget), cutHere, result)
    requires result.Failed? && !result.error.NoCompleteRoute? && !result.error.FinalRouteInvalid?
    ensures RepairAnswer(q, most, cut, result)
  {
    hide GoodPlan, Roomy;
  }
}
