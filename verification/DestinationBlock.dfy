/** Routes into an immutable destination block and, optionally, back to a
    queue anchor, with one bridge budget shared by both boundaries; and the
    preflight arithmetic that rejects hopeless requests. */
module DestinationBlock {
  import opened Wrappers
  import opened Repeats
  import opened Ordering
  import opened AnchoredPath
  import opened AnchoredSearch
  import opened GapPlans

  const MAX_BRIDGES: nat := 8

  datatype BoundaryGap = BoundaryGap(left: nat, right: nat, candidates: seq<Candidate>)

  /** `gaps` are the transitions into the block and, when the queue is
      rejoined, out of it; only they may receive tracks. */
  datatype Destination = Destination(
    policy: Policy, history: seq<nat>, unavailable: seq<nat>, gaps: seq<BoundaryGap>,
    candidateLimit: nat, beamWidth: nat, variationPercent: nat,
    adjacent: (nat, nat) -> Option<Distance>, variationKey: seq<nat> -> nat)

  datatype BlockPlan = BlockPlan(trackCount: nat, rejoinsQueue: bool, maxAddedTracks: nat)

  datatype Refusal =
    | InconsistentAnchors
    | BudgetTooLarge
    | SearchLimitsMustBePositive
    | PathRefused(error: PathError)

  datatype DestinationOption = DestinationOption(added: nat, route: seq<nat>, sum: real, worst: real)

  datatype BridgeResult = BridgesRefused(refusal: Refusal) | Bridges(options: seq<PathOption>)

  datatype DestinationResult = Refused(refusal: Refusal) | Options(options: seq<DestinationOption>)

  function BridgeRequest(d: Destination, route: seq<nat>, gap: BoundaryGap, maxAdded: nat,
                         unavailable: seq<nat>): Request
    requires route != []
  {
    Request(route[..|route| - 1], d.history, unavailable, gap.left, gap.right, gap.candidates, d.policy,
            Config(maxAdded, d.candidateLimit, d.beamWidth, 1, d.variationPercent),
            FixedAdjacent(d.adjacent), d.variationKey)
  }

  /** The limits cover every candidate sequence, and one path a count is all there is. */
  ghost predicate Unlimited(r: Request, ignored: nat) {
    NonBinding(r) && OnePerCount(r, ignored)
  }

  /** Bridges into the last transition of `route`.  `cut` says whether a
      candidate or beam limit dropped a path, `trimmed` whether some count had
      more complete paths than the one kept. */
  method BridgeRoutes(d: Destination, route: seq<nat>, gap: BoundaryGap, maxAdded: nat, unavailable: seq<nat>,
                      ignored: nat)
    returns (result: BridgeResult, ghost cut: bool, ghost trimmed: bool)
    ensures result.Bridges? ==>
              && |route| >= 2 && route[|route| - 1] == gap.right
              && AllGood(BridgeRequest(d, route, gap, maxAdded, unavailable), ignored, result.options)
              && SearchOf(BridgeRequest(d, route, gap, maxAdded, unavailable), ignored) == Found(result.options)
              && (cut <==> !SearchUncut(BridgeRequest(d, route, gap, maxAdded, unavailable), ignored))
              && (trimmed <==> SearchTrimmed(BridgeRequest(d, route, gap, maxAdded, unavailable), ignored))
    ensures result.Bridges? && !cut && !trimmed ==>
              forall xs: seq<nat> | |xs| <= maxAdded &&
                  Feasible(BridgeRequest(d, route, gap, maxAdded, unavailable), ignored, xs) ::
                HasOption(result.options, xs)
    ensures result.Bridges? && !cut && d.variationPercent == 0 ==>
              var r := BridgeRequest(d, route, gap, maxAdded, unavailable);
              && (forall o | o in result.options :: LeastFeasible(r, ignored, o.intermediates))
              && (forall xs: seq<nat> | |xs| <= maxAdded && Feasible(r, ignored, xs) ::
                    exists o :: o in result.options && |o.intermediates| == |xs|)
    ensures route != [] ==> Unlimited(BridgeRequest(d, route, gap, maxAdded, unavailable), ignored) ==> !cut && !trimmed
    ensures result.BridgesRefused? <==> BridgeRefusal(d, route, gap, maxAdded, unavailable).Some?
    ensures result.BridgesRefused? ==> BridgeRefusal(d, route, gap, maxAdded, unavailable) == Some(result.refusal)
    ensures BridgeRefusedRightly(d, route, gap, maxAdded, unavailable,
                                 if result.BridgesRefused? then Some(result.refusal) else None)
  {
    BridgeRefusalMeaning(d, route, gap, maxAdded, unavailable);
    hide BridgeRefusedRightly;
    hide Validate, AllGood, Feasible, LeastFeasible, NonBinding, OnePerCount, SearchOf, SearchUncut, SearchTrimmed,
      StructuralBound;
    if |route| < 2 || route[|route| - 2] != gap.left || route[|route| - 1] != gap.right {
      return BridgesRefused(InconsistentAnchors), false, false;
    }
    if maxAdded > MAX_BRIDGES {
      return BridgesRefused(BudgetTooLarge), false, false;
    }
    if d.candidateLimit == 0 || d.beamWidth == 0 {
      return BridgesRefused(SearchLimitsMustBePositive), false, false;
    }
    var r := BridgeRequest(d, route, gap, maxAdded, unavailable);
    var found;
    found, cut, trimmed := Search(r, ignored);
    match found
    case Rejected(error) => return BridgesRefused(PathRefused(error)), false, false;
    case Found(options) =>
      if !cut && !trimmed {
        forall xs: seq<nat> | |xs| <= maxAdded && Feasible(r, ignored, xs) ensures HasOption(options, xs) {
          assert OptionsAnswer(r, options, trimmed, xs);
        }
      }
      if !cut && d.variationPercent == 0 {
        SearchKeepsLeast(r, ignored);
      }
      return Bridges(options), cut, trimmed;
  }

  /** Why a bridge search is refused, in the order of the checks. */
  function BridgeRefusal(d: Destination, route: seq<nat>, gap: BoundaryGap, maxAdded: nat,
                         unavailable: seq<nat>): Option<Refusal> {
    if |route| < 2 || route[|route| - 2] != gap.left || route[|route| - 1] != gap.right then Some(InconsistentAnchors)
    else if maxAdded > MAX_BRIDGES then Some(BudgetTooLarge)
    else if d.candidateLimit == 0 || d.beamWidth == 0 then Some(SearchLimitsMustBePositive)
    else match Validate(BridgeRequest(d, route, gap, maxAdded, unavailable))
      case Some(error) => Some(PathRefused(error))
      case None => None
  }

  /** The route ends with the transition that the gap is about. */
  ghost predicate EndsWithGap(route: seq<nat>, gap: BoundaryGap) {
    |route| > 1 && route[|route| - 2..] == [gap.left, gap.right]
  }

  /** Which bridge search is refused, and why, by the request alone. */
  ghost predicate BridgeRefusedRightly(d: Destination, route: seq<nat>, gap: BoundaryGap, maxAdded: nat,
                                       unavailable: seq<nat>, refusal: Option<Refusal>) {
    var asked := EndsWithGap(route, gap);
    var within := asked && maxAdded <= 8;
    var limited := within && d.candidateLimit >= 1 && d.beamWidth >= 1;
    var varied := limited && gap.left != gap.right && d.variationPercent <= 100;
    && (refusal == Some(InconsistentAnchors) <==> !asked)
    && (refusal == Some(BudgetTooLarge) <==> asked && !within)
    && (refusal == Some(SearchLimitsMustBePositive) <==> within && !limited)
    && (refusal == Some(PathRefused(AnchorsMustDiffer)) <==> limited && gap.left == gap.right)
    && (refusal == Some(PathRefused(VariationOutOfRange)) <==>
          limited && gap.left != gap.right && d.variationPercent > 100)
    && (refusal.Some? && refusal.value.PathRefused? && refusal.value.error.InvalidTrackIndex? <==>
          varied && !TracksKnown(BridgeRequest(d, route, gap, maxAdded, unavailable)))
    && (varied && refusal.Some? && refusal.value.PathRefused? && refusal.value.error.InvalidTrackIndex? ==>
          FirstUnknown(BridgeRequest(d, route, gap, maxAdded, unavailable), refusal.value.error.index))
    && (refusal.None? <==> varied && TracksKnown(BridgeRequest(d, route, gap, maxAdded, unavailable)))
  }

  lemma BridgeRefusalMeaning(d: Destination, route: seq<nat>, gap: BoundaryGap, maxAdded: nat, unavailable: seq<nat>)
    ensures BridgeRefusedRightly(d, route, gap, maxAdded, unavailable,
                                 BridgeRefusal(d, route, gap, maxAdded, unavailable))
  {
    hide TracksKnown, FirstUnknown, Validate;
    if EndsWithGap(route, gap) {
      var r := BridgeRequest(d, route, gap, maxAdded, unavailable);
      ValidationDecides(r);
      assert route[|route| - 2..][0] == route[|route| - 2] && route[|route| - 2..][1] == route[|route| - 1];
      assert r.routePrefix != [] && r.routePrefix[|r.routePrefix| - 1] == gap.left;
    } else if |route| > 1 {
      assert route[|route| - 2..] == [route[|route| - 2], route[|route| - 1]];
    }
  }

  // ----- the checks on a finished route -----

  /** Every generated track keeps the windows in the whole route, history included. */
  predicate BridgesRepeatSafe(d: Destination, route: seq<nat>, anchors: seq<nat>) {
    var full := d.history + route;
    forall position | |d.history| <= position < |full| ::
      full[position] in anchors || PositionSafe(d.policy, full, position)
  }

  function FirstIndex(route: seq<nat>, x: nat): (r: Option<nat>)
    ensures r.Some? ==> r.value < |route| && route[r.value] == x && x !in route[..r.value]
    ensures r.None? ==> x !in route
  {
    if route == [] then None
    else if route[0] == x then Some(0)
    else match FirstIndex(route[1..], x)
      case None => None
      case Some(k) =>
        assert route[..k + 1] == [route[0]] + route[1..][..k];
        Some(k + 1)
  }

  /** Every block track, at its own offset, is clear of the whole context. */
  predicate BlockClear(p: Policy, context: seq<nat>, block: seq<nat>) {
    forall i, k | 0 <= i < |block| && 0 <= k < |context| :: !TooClose(p, context[k], block[i], |context| - k + i)
  }

  predicate BlockContextSafe(d: Destination, route: seq<nat>, block: seq<nat>)
    requires block != []
  {
    match FirstIndex(route, block[0])
    case None => false
    case Some(first) => BlockClear(d.policy, d.history + route[..first], block)
  }

  ghost predicate FirstAt(route: seq<nat>, x: nat, i: nat) {
    i < |route| && route[i] == x && x !in route[..i]
  }

  /** The check passes for any route exactly when the block's first track is on
      it and every block track clears all that comes before that place. */
  lemma BlockCheckMeaning(d: Destination, route: seq<nat>, block: seq<nat>)
    requires block != []
    ensures BlockContextSafe(d, route, block) <==>
            exists first: nat :: FirstAt(route, block[0], first) &&
                                 BlockClear(d.policy, d.history + route[..first], block)
  {
    hide BlockClear;
    var found := FirstIndex(route, block[0]);
    if found.Some? {
      assert FirstAt(route, block[0], found.value);
    }
    forall first: nat | FirstAt(route, block[0], first) ensures found == Some(first) {
      OnlyOneFirst(route, block[0], first, if found.Some? then found.value else first);
    }
  }

  lemma OnlyOneFirst(route: seq<nat>, x: nat, i: nat, j: nat)
    requires FirstAt(route, x, i) && FirstAt(route, x, j)
    ensures i == j
  {
    forall k | 0 <= k < i ensures route[k] != x {
      assert route[..i][k] == route[k];
    }
    forall k | 0 <= k < j ensures route[k] != x {
      assert route[..j][k] == route[k];
    }
  }

  // ----- what an option is -----

  predicate PlanFits(original: seq<nat>, plan: BlockPlan) {
    plan.trackCount > 0 && |original| >= 1 + plan.trackCount + (if plan.rejoinsQueue then 1 else 0)
  }

  function StartPosition(original: seq<nat>, plan: BlockPlan): nat
    requires PlanFits(original, plan)
  {
    |original| - (1 + plan.trackCount + (if plan.rejoinsQueue then 1 else 0))
  }

  function Lead(original: seq<nat>, plan: BlockPlan): (r: seq<nat>)
    requires PlanFits(original, plan)
    ensures r != []
  {
    original[..StartPosition(original, plan) + 1]
  }

  function BlockOf(original: seq<nat>, plan: BlockPlan): (r: seq<nat>)
    requires PlanFits(original, plan)
    ensures |r| == plan.trackCount
  {
    var start := StartPosition(original, plan);
    original[start + 1..start + 1 + plan.trackCount]
  }

  function Tail(original: seq<nat>, plan: BlockPlan): (r: seq<nat>)
    requires PlanFits(original, plan)
    ensures |r| == if plan.rejoinsQueue then 1 else 0
  {
    original[StartPosition(original, plan) + 1 + plan.trackCount..]
  }

  lemma OriginalSplits(original: seq<nat>, plan: BlockPlan)
    requires PlanFits(original, plan)
    ensures original == Lead(original, plan) + BlockOf(original, plan) + Tail(original, plan)
  {
  }

  /** Original lead, outward bridges, the block whole and in order, return
      bridges, rejoin anchor; within the shared budget; bridges distinct. */
  ghost predicate Shape(d: Destination, original: seq<nat>, plan: BlockPlan, outward: seq<nat>, back: seq<nat>,
                        o: DestinationOption)
    requires PlanFits(original, plan)
  {
    && o.route == Lead(original, plan) + outward + BlockOf(original, plan) + back + Tail(original, plan)
    && o.added == |outward| + |back| <= plan.maxAddedTracks
    && (!plan.rejoinsQueue ==> back == [])
    && Distinct(outward + back) && Avoids(outward + back, d.unavailable)
    && Offered(d, 0, outward) && Offered(d, 1, back)
  }

  /** The bridges are candidates of their boundary. */
  predicate Offered(d: Destination, boundary: nat, bridges: seq<nat>) {
    forall i | 0 <= i < |bridges| ::
      boundary < |d.gaps| && bridges[i] in CandidateTracks(d.gaps[boundary].candidates)
  }

  /** The rejoin anchor is clear of everything generated, and of the block. */
  ghost predicate RejoinClear(d: Destination, original: seq<nat>, plan: BlockPlan, outward: seq<nat>, back: seq<nat>)
    requires PlanFits(original, plan)
  {
    plan.rejoinsQueue ==>
      var since := outward + BlockOf(original, plan) + back;
      forall k | 0 <= k < |since| :: !TooClose(d.policy, since[k], Tail(original, plan)[0], |since| - k)
  }

  /** Originals are distinct and owned by the outer plan. */
  ghost predicate OriginalsOwned(d: Destination, original: seq<nat>) {
    Distinct(original) && forall x | x in original :: x in d.unavailable
  }

  ghost predicate SafeOption(d: Destination, original: seq<nat>, plan: BlockPlan, outward: seq<nat>, back: seq<nat>,
                             o: DestinationOption)
    requires PlanFits(original, plan)
  {
    && BridgesRepeatSafe(d, o.route, original)
    && RejoinClear(d, original, plan, outward, back)
    && (OriginalsOwned(d, original) ==>
          BlockClear(d.policy, d.history + Lead(original, plan) + outward, BlockOf(original, plan)))
  }

  /** Legs of both boundaries; the legs inside the block are not counted. */
  function BoundaryCost(d: Destination, original: seq<nat>, plan: BlockPlan, outward: seq<nat>,
                        back: seq<nat>): Option<Cost>
    requires PlanFits(original, plan)
  {
    var lead, block, score := Lead(original, plan), BlockOf(original, plan), FixedAdjacent(d.adjacent);
    var there := WalkCost(score, lead, outward + [block[0]]);
    if plan.rejoinsQueue then
      AddCosts(there, WalkCost(score, lead + outward + block, back + [Tail(original, plan)[0]]))
    else there
  }

  ghost predicate GoodDestination(d: Destination, original: seq<nat>, plan: BlockPlan, o: DestinationOption)
    requires PlanFits(original, plan)
  {
    exists outward, back: seq<nat> :: GoodVia(d, original, plan, outward, back, o)
  }

  ghost predicate GoodVia(d: Destination, original: seq<nat>, plan: BlockPlan, outward: seq<nat>, back: seq<nat>,
                          o: DestinationOption)
    requires PlanFits(original, plan)
  {
    && Shape(d, original, plan, outward, back, o) && SafeOption(d, original, plan, outward, back, o)
    && BoundaryCost(d, original, plan, outward, back) == Some(Cost(o.sum, o.worst))
  }

  /** With owned distinct originals the block is found where it stands. */
  lemma BlockIsFound(d: Destination, original: seq<nat>, plan: BlockPlan, outward: seq<nat>, back: seq<nat>,
                     o: DestinationOption)
    requires PlanFits(original, plan) && Shape(d, original, plan, outward, back, o) && OriginalsOwned(d, original)
    ensures FirstIndex(o.route, BlockOf(original, plan)[0]) == Some(|Lead(original, plan)| + |outward|)
    ensures o.route[..|Lead(original, plan)| + |outward|] == Lead(original, plan) + outward
  {
    hide FirstIndex, Offered;
    var lead, block := Lead(original, plan), BlockOf(original, plan);
    var at := |lead| + |outward|;
    var front := lead + outward;
    assert o.route == front + block + back + Tail(original, plan);
    assert o.route[..at] == front && o.route[at] == block[0];
    assert block[0] == original[|lead|] && block[0] in original;
    forall k | 0 <= k < at ensures front[k] != block[0] {
      if k < |lead| {
        assert front[k] == original[k];
      } else {
        assert front[k] == outward[k - |lead|] == (outward + back)[k - |lead|];
      }
    }
  }

  /** The context check on the finished route is the clearance of the block
      from everything that precedes it. */
  lemma ContextCheckMeaning(d: Destination, original: seq<nat>, plan: BlockPlan, outward: seq<nat>, back: seq<nat>,
                            o: DestinationOption)
    requires PlanFits(original, plan) && Shape(d, original, plan, outward, back, o) && OriginalsOwned(d, original)
    ensures BlockContextSafe(d, o.route, BlockOf(original, plan)) <==>
            BlockClear(d.policy, d.history + Lead(original, plan) + outward, BlockOf(original, plan))
  {
    hide BlockClear, FirstIndex, OriginalsOwned;
    BlockIsFound(d, original, plan, outward, back, o);
    assert d.history + (Lead(original, plan) + outward) == d.history + Lead(original, plan) + outward;
  }

  // ----- the preflight arithmetic -----

  datatype Requirement = Requirement(artist: nat, album: nat, track: nat) {
    function Minimum(): nat {
      Max(artist, Max(album, track))
    }
  }

  /** Intermediates that push a conflict at `position` of an `n`-track prefix out of its window. */
  function AfterConflict(position: nat, n: nat, window: nat): nat {
    Minus(window + 1, Minus(n, position))
  }

  /** What one earlier track asks for before the destination. */
  function RequirementAt(p: Policy, context: seq<nat>, k: nat, destination: nat): Requirement
    requires k < |context|
  {
    var previous, next := TrackAt(p, context[k]), TrackAt(p, destination);
    Requirement(
      if p.artistWindow > 0 && ArtistsRepeat(previous, next) then AfterConflict(k, |context|, p.artistWindow) else 0,
      if p.albumWindow > 0 && AlbumsRepeat(previous, next) then AfterConflict(k, |context|, p.albumWindow) else 0,
      if p.trackWindow > 0 && context[k] == destination then AfterConflict(k, |context|, p.trackWindow) else 0)
  }

  function Worst(a: Requirement, b: Requirement): Requirement {
    Requirement(Max(a.artist, b.artist), Max(a.album, b.album), Max(a.track, b.track))
  }

  function RequirementUpTo(p: Policy, context: seq<nat>, n: nat, destination: nat): Requirement
    requires n <= |context|
  {
    if n == 0 then Requirement(0, 0, 0)
    else Worst(RequirementUpTo(p, context, n - 1, destination), RequirementAt(p, context, n - 1, destination))
  }

  method DestinationRequirement(p: Policy, context: seq<nat>, destination: nat) returns (requirement: Requirement)
    ensures requirement == RequirementUpTo(p, context, |context|, destination)
  {
    requirement := Requirement(0, 0, 0);
    for k := 0 to |context|
      invariant requirement == RequirementUpTo(p, context, k, destination)
    {
      var previous, next := TrackAt(p, context[k]), TrackAt(p, destination);
      if p.artistWindow > 0 && ArtistsRepeat(previous, next) {
        requirement := requirement.(artist := Max(requirement.artist, AfterConflict(k, |context|, p.artistWindow)));
      }
      if p.albumWindow > 0 && AlbumsRepeat(previous, next) {
        requirement := requirement.(album := Max(requirement.album, AfterConflict(k, |context|, p.albumWindow)));
      }
      if p.trackWindow > 0 && context[k] == destination {
        requirement := requirement.(track := Max(requirement.track, AfterConflict(k, |context|, p.trackWindow)));
      }
    }
  }

  lemma RequirementAtIsExact(p: Policy, context: seq<nat>, k: nat, destination: nat, n: nat)
    requires k < |context|
    ensures RequirementAt(p, context, k, destination).Minimum() <= n <==>
            !TooClose(p, context[k], destination, |context| - k + n)
  {
    hide ArtistsRepeat, AlbumsRepeat;
  }

  /** The requirement is exactly where the context clears the destination. */
  lemma {:induction false} RequirementIsExact(p: Policy, context: seq<nat>, upTo: nat, destination: nat, n: nat)
    requires upTo <= |context|
    ensures RequirementUpTo(p, context, upTo, destination).Minimum() <= n <==>
            forall k | 0 <= k < upTo :: !TooClose(p, context[k], destination, |context| - k + n)
  {
    hide TooClose, RequirementAt;
    if upTo > 0 {
      RequirementIsExact(p, context, upTo - 1, destination, n);
      RequirementAtIsExact(p, context, upTo - 1, destination, n);
    }
  }

  function Requires(p: Policy, context: seq<nat>, destination: nat): Requirement {
    RequirementUpTo(p, context, |context|, destination)
  }

  /** Block track `i` already has `i` block tracks in front of it. */
  function OutwardNeed(p: Policy, context: seq<nat>, block: seq<nat>, i: nat): nat
    requires i < |block|
  {
    var r := Requires(p, context, block[i]);
    Requirement(Minus(r.artist, i), Minus(r.album, i), Minus(r.track, i)).Minimum()
  }

  function OutwardUpTo(p: Policy, context: seq<nat>, block: seq<nat>, n: nat): nat
    requires n <= |block|
  {
    if n == 0 then 0 else Max(OutwardUpTo(p, context, block, n - 1), OutwardNeed(p, context, block, n - 1))
  }

  /** Block track `i` already has the rest of the block behind it. */
  function RejoinNeed(p: Policy, block: seq<nat>, rejoin: nat, i: nat): nat
    requires i < |block|
  {
    Minus(Requires(p, [block[i]], rejoin).Minimum(), |block| - 1 - i)
  }

  function RejoinUpTo(p: Policy, block: seq<nat>, rejoin: nat, n: nat): nat
    requires n <= |block|
  {
    if n == 0 then 0 else Max(RejoinUpTo(p, block, rejoin, n - 1), RejoinNeed(p, block, rejoin, n - 1))
  }

  function OutwardMinimum(p: Policy, context: seq<nat>, block: seq<nat>): nat {
    OutwardUpTo(p, context, block, |block|)
  }

  function RejoinMinimum(p: Policy, block: seq<nat>, tail: seq<nat>): nat {
    if tail == [] then 0 else RejoinUpTo(p, block, tail[0], |block|)
  }

  /** The request is rejected, with the computed minimum, when both boundaries
      together need more than is available. */
  method Preflight(p: Policy, history: seq<nat>, lead: seq<nat>, block: seq<nat>, tail: seq<nat>, available: nat)
    returns (rejected: Option<nat>)
    ensures rejected == var minimum := OutwardMinimum(p, history + lead, block) + RejoinMinimum(p, block, tail);
                        if minimum > available then Some(minimum) else None
  {
    hide RequirementUpTo;
    var outward, back := 0, 0;
    for i := 0 to |block|
      invariant outward == OutwardUpTo(p, history + lead, block, i)
      invariant tail != [] ==> back == RejoinUpTo(p, block, tail[0], i)
      invariant tail == [] ==> back == 0
    {
      var r := DestinationRequirement(p, history + lead, block[i]);
      outward := Max(outward, Requirement(Minus(r.artist, i), Minus(r.album, i), Minus(r.track, i)).Minimum());
      if tail != [] {
        var s := DestinationRequirement(p, [block[i]], tail[0]);
        back := Max(back, Minus(s.Minimum(), |block| - 1 - i));
      }
    }
    var minimum := outward + back;
    return if minimum > available then Some(minimum) else None;
  }

  /** Every block track clears the earlier context when `n` bridges precede the block. */
  ghost predicate OutwardClear(p: Policy, context: seq<nat>, block: seq<nat>, n: nat) {
    forall i, k | 0 <= i < |block| && 0 <= k < |context| :: !TooClose(p, context[k], block[i], |context| - k + n + i)
  }

  /** The rejoin anchor clears every block track when `n` bridges follow the block. */
  ghost predicate ReturnClear(p: Policy, block: seq<nat>, rejoin: nat, n: nat) {
    forall i | 0 <= i < |block| :: !TooClose(p, block[i], rejoin, |block| - i + n)
  }

  lemma {:induction false} OutwardUpToIsExact(p: Policy, context: seq<nat>, block: seq<nat>, upTo: nat, n: nat)
    requires upTo <= |block|
    ensures OutwardUpTo(p, context, block, upTo) <= n <==>
            forall i, k | 0 <= i < upTo && 0 <= k < |context| ::
                !TooClose(p, context[k], block[i], |context| - k + n + i)
  {
    hide TooClose, RequirementUpTo;
    if upTo > 0 {
      var i := upTo - 1;
      OutwardUpToIsExact(p, context, block, i, n);
      RequirementIsExact(p, context, |context|, block[i], n + i);
      forall k | 0 <= k < |context|
        ensures TooClose(p, context[k], block[i], |context| - k + (n + i)) ==
                TooClose(p, context[k], block[i], |context| - k + n + i)
      {
        assert |context| - k + (n + i) == |context| - k + n + i;
      }
    }
  }

  lemma RejoinNeedIsExact(p: Policy, block: seq<nat>, rejoin: nat, i: nat, n: nat)
    requires i < |block|
    ensures RejoinNeed(p, block, rejoin, i) <= n <==> !TooClose(p, block[i], rejoin, |block| - i + n)
  {
    hide TooClose;
    var one, m := [block[i]], n + (|block| - 1 - i);
    RequirementIsExact(p, one, |one|, rejoin, m);
    assert |one| - 0 + m == |block| - i + n;
    assert one[0] == block[i];
    if !TooClose(p, block[i], rejoin, |block| - i + n) {
      forall k | 0 <= k < |one| ensures !TooClose(p, one[k], rejoin, |one| - k + m) {
        assert k == 0;
      }
    }
  }

  lemma {:induction false} RejoinUpToIsExact(p: Policy, block: seq<nat>, rejoin: nat, upTo: nat, n: nat)
    requires upTo <= |block|
    ensures RejoinUpTo(p, block, rejoin, upTo) <= n <==>
            forall i | 0 <= i < upTo :: !TooClose(p, block[i], rejoin, |block| - i + n)
  {
    hide TooClose, RejoinNeed;
    if upTo > 0 {
      var i := upTo - 1;
      RejoinUpToIsExact(p, block, rejoin, i, n);
      RejoinNeedIsExact(p, block, rejoin, i, n);
    }
  }

  /** The preflight sum is the least total of intermediates on both boundaries. */
  lemma PreflightIsExact(p: Policy, context: seq<nat>, block: seq<nat>, tail: seq<nat>, outward: nat, back: nat)
    ensures OutwardMinimum(p, context, block) <= outward <==> OutwardClear(p, context, block, outward)
    ensures tail != [] ==> (RejoinMinimum(p, block, tail) <= back <==> ReturnClear(p, block, tail[0], back))
    ensures OutwardClear(p, context, block, outward) && (tail != [] ==> ReturnClear(p, block, tail[0], back)) ==>
              OutwardMinimum(p, context, block) + RejoinMinimum(p, block, tail) <= outward + back
  {
    hide TooClose, OutwardUpTo, RejoinUpTo;
    OutwardUpToIsExact(p, context, block, |block|, outward);
    if tail != [] {
      RejoinUpToIsExact(p, block, tail[0], |block|, back);
    }
  }

  /** No option of the planner gets by with fewer tracks than the preflight
      asks for, so a rejected request has no route. */
  lemma PreflightIsNecessary(d: Destination, original: seq<nat>, plan: BlockPlan, o: DestinationOption)
    requires PlanFits(original, plan) && GoodDestination(d, original, plan, o) && OriginalsOwned(d, original)
    ensures OutwardMinimum(d.policy, d.history + Lead(original, plan), BlockOf(original, plan)) +
            RejoinMinimum(d.policy, BlockOf(original, plan), Tail(original, plan)) <= o.added
  {
    hide TooClose, OutwardUpTo, RejoinUpTo, BridgesRepeatSafe, OriginalsOwned;
    var outward, back: seq<nat> :| GoodVia(d, original, plan, outward, back, o);
    var context, block, tail := d.history + Lead(original, plan), BlockOf(original, plan), Tail(original, plan);
    OutwardFromClear(d.policy, context, outward, block);
    if tail != [] {
      ReturnFromClear(d, original, plan, outward, back);
    }
    PreflightIsExact(d.policy, context, block, tail, |outward|, |back|);
  }

  lemma OutwardFromClear(p: Policy, context: seq<nat>, outward: seq<nat>, block: seq<nat>)
    requires BlockClear(p, context + outward, block)
    ensures OutwardClear(p, context, block, |outward|)
  {
    hide TooClose;
    var all := context + outward;
    forall i, k | 0 <= i < |block| && 0 <= k < |context|
      ensures !TooClose(p, context[k], block[i], |context| - k + |outward| + i)
    {
      assert all[k] == context[k];
      assert !TooClose(p, all[k], block[i], |all| - k + i);
      assert |all| - k + i == |context| - k + |outward| + i;
    }
  }

  lemma ReturnFromClear(d: Destination, original: seq<nat>, plan: BlockPlan, outward: seq<nat>, back: seq<nat>)
    requires PlanFits(original, plan) && plan.rejoinsQueue && RejoinClear(d, original, plan, outward, back)
    ensures ReturnClear(d.policy, BlockOf(original, plan), Tail(original, plan)[0], |back|)
  {
    hide TooClose;
    var block, rejoin := BlockOf(original, plan), Tail(original, plan)[0];
    var since := outward + block + back;
    forall i | 0 <= i < |block| ensures !TooClose(d.policy, block[i], rejoin, |block| - i + |back|) {
      var k := |outward| + i;
      assert since[k] == block[i];
      assert |since| - k == |block| - i + |back|;
    }
  }

  // ----- the search over both boundaries -----

  function OptionKeyOf(o: DestinationOption): Key {
    Key(0, o.worst, o.sum, 0.0, o.route)
  }

  /** Options of one count are compared by worst leg, then sum, then route. */
  lemma OptionOrderMeaning(a: DestinationOption, b: DestinationOption)
    ensures KeyLe(OptionKeyOf(a), OptionKeyOf(b)) <==>
            if a.worst != b.worst then a.worst < b.worst
            else if a.sum != b.sum then a.sum < b.sum
            else ComesFirst(a.route, b.route)
  {
    KeyLeMeaning(OptionKeyOf(a), OptionKeyOf(b));
  }

  /** The members of `route` that are not in `owned`, after `owned`. */
  function AlsoUnavailable(owned: seq<nat>, route: seq<nat>): (r: seq<nat>)
    ensures forall x :: x in r <==> x in owned || x in route
  {
    if route == [] then owned
    else
      var n := |route| - 1;
      assert forall x :: x in route <==> x in route[..n] || x == route[n];
      var r := AlsoUnavailable(owned, route[..n]);
      if route[n] in owned then r else r + [route[n]]
  }

  /** Available tracks are the candidates the outer plan does not own. */
  lemma AvailableIsOffered(r: Request, xs: seq<nat>)
    ensures FromPool(xs, Available(r)) <==>
            Avoids(xs, r.unavailable) && FromPool(xs, CandidateTracks(r.candidates))
  {
    hide AvailableTracks;
    forall i | 0 <= i < |xs|
      ensures xs[i] in Available(r) <==> xs[i] !in r.unavailable && xs[i] in CandidateTracks(r.candidates)
    {
      AvailableMeaning(r, xs[i]);
      var tracks := CandidateTracks(r.candidates);
      assert forall k | 0 <= k < |r.candidates| :: tracks[k] == r.candidates[k].track;
    }
  }

  lemma OptionBasics(r: Request, ignored: nat, o: PathOption)
    requires GoodOption(r, ignored, o)
    ensures Distinct(o.intermediates) && Avoids(o.intermediates, r.unavailable)
    ensures FromPool(o.intermediates, CandidateTracks(r.candidates))
    ensures |o.intermediates| <= r.config.maxIntermediates
    ensures RightAnchorSafe(r.policy, FullRoute(r, o.intermediates), ignored)
    ensures o.route == r.routePrefix + o.intermediates + [r.rightAnchor]
  {
    hide AvailableTracks, WalkCost, GeneratedSafe, RightAnchorSafe, PathKey;
    AvailableIsOffered(r, o.intermediates);
  }

  predicate GapsMatch(d: Destination, original: seq<nat>, plan: BlockPlan)
    requires PlanFits(original, plan)
  {
    var lead, block := Lead(original, plan), BlockOf(original, plan);
    && |d.gaps| == (if plan.rejoinsQueue then 2 else 1)
    && d.gaps[0].left == lead[|lead| - 1] && d.gaps[0].right == block[0]
    && (plan.rejoinsQueue ==> d.gaps[1].left == block[|block| - 1] && d.gaps[1].right == Tail(original, plan)[0])
  }

  /** Lead, block and rejoin anchor are there and the boundary gaps lie between them. */
  ghost predicate Consistent(d: Destination, original: seq<nat>, plan: BlockPlan) {
    var n, rejoin := |original|, if plan.rejoinsQueue then 1 else 0;
    var entrance := n - rejoin - plan.trackCount;
    && plan.trackCount >= 1 && entrance >= 1 && |d.gaps| == 1 + rejoin
    && d.gaps[0].left == original[entrance - 1] && d.gaps[0].right == original[entrance]
    && (plan.rejoinsQueue ==> d.gaps[1].left == original[n - 2] && d.gaps[1].right == original[n - 1])
  }

  lemma ConsistentMeaning(d: Destination, original: seq<nat>, plan: BlockPlan)
    ensures Consistent(d, original, plan) <==> PlanFits(original, plan) && GapsMatch(d, original, plan)
  {
    if PlanFits(original, plan) {
      OriginalSplits(original, plan);
    }
  }

  /** The route up to the block's entrance, as the outward search sees it. */
  function OutwardSource(original: seq<nat>, plan: BlockPlan): seq<nat>
    requires PlanFits(original, plan)
  {
    Lead(original, plan) + [BlockOf(original, plan)[0]]
  }

  function OutwardRequest(d: Destination, original: seq<nat>, plan: BlockPlan): Request
    requires PlanFits(original, plan) && GapsMatch(d, original, plan)
  {
    BridgeRequest(d, OutwardSource(original, plan), d.gaps[0], plan.maxAddedTracks, d.unavailable)
  }

  /** The route up to the block's entrance, bridges included. */
  function Entry(original: seq<nat>, plan: BlockPlan, outward: seq<nat>): seq<nat>
    requires PlanFits(original, plan)
  {
    Lead(original, plan) + outward + [BlockOf(original, plan)[0]]
  }

  /** The route up to the rejoin anchor, as the return search sees it. */
  function ReturnSource(original: seq<nat>, plan: BlockPlan, outward: seq<nat>): seq<nat>
    requires PlanFits(original, plan)
  {
    Entry(original, plan, outward) + BlockOf(original, plan)[1..] + Tail(original, plan)
  }

  function ReturnRequest(d: Destination, original: seq<nat>, plan: BlockPlan, outward: seq<nat>): Request
    requires PlanFits(original, plan) && GapsMatch(d, original, plan) && plan.rejoinsQueue
  {
    BridgeRequest(d, ReturnSource(original, plan, outward), d.gaps[1], Minus(plan.maxAddedTracks, |outward|),
                  AlsoUnavailable(d.unavailable, Entry(original, plan, outward)))
  }

  lemma OutwardSplits(original: seq<nat>, plan: BlockPlan)
    requires PlanFits(original, plan)
    ensures OutwardSource(original, plan) == original[..StartPosition(original, plan) + 2]
    ensures OutwardSource(original, plan)[..|OutwardSource(original, plan)| - 1] == Lead(original, plan)
  {
  }

  /** History and lead: the part of the route that the return search leaves untested. */
  function Context(d: Destination, original: seq<nat>, plan: BlockPlan): nat
    requires PlanFits(original, plan)
  {
    |d.history| + |Lead(original, plan)|
  }

  /** What the outward search is asked. */
  lemma OutwardAsked(d: Destination, original: seq<nat>, plan: BlockPlan)
    requires PlanFits(original, plan) && GapsMatch(d, original, plan)
    ensures var r := OutwardRequest(d, original, plan);
            && r.history == d.history && r.routePrefix == Lead(original, plan) &&
                r.rightAnchor == BlockOf(original, plan)[0]
            && r.unavailable == d.unavailable && r.candidates == d.gaps[0].candidates && r.policy == d.policy
            && r.score == FixedAdjacent(d.adjacent) && r.config.maxIntermediates == plan.maxAddedTracks
            && r.config.candidateLimit == d.candidateLimit && r.config.beamWidth == d.beamWidth
            && r.config.alternativesPerCount == 1 && r.config.variationPercent == d.variationPercent
            && r.variationKey == d.variationKey
  {
    OutwardSplits(original, plan);
  }

  /** What the return search is asked. */
  lemma ReturnAsked(d: Destination, original: seq<nat>, plan: BlockPlan, outward: seq<nat>)
    requires PlanFits(original, plan) && GapsMatch(d, original, plan) && plan.rejoinsQueue
    ensures var r := ReturnRequest(d, original, plan, outward);
            && r.history == d.history && r.routePrefix == Lead(original, plan) + outward + BlockOf(original, plan)
            && r.rightAnchor == Tail(original, plan)[0] && r.candidates == d.gaps[1].candidates && r.policy == d.policy
            && r.unavailable == AlsoUnavailable(d.unavailable, Entry(original, plan, outward))
            && r.score == FixedAdjacent(d.adjacent)
            && r.config.maxIntermediates == Minus(plan.maxAddedTracks, |outward|)
            && r.config.candidateLimit == d.candidateLimit && r.config.beamWidth == d.beamWidth
            && r.config.alternativesPerCount == 1 && r.config.variationPercent == d.variationPercent
            && r.variationKey == d.variationKey
  {
    ReturnSplits(original, plan, outward);
  }

  function Combined(outward: PathOption, returning: PathOption): DestinationOption {
    DestinationOption(|outward.intermediates| + |returning.intermediates|, returning.route,
                      outward.sum + returning.sum, MaxReal(outward.worst, returning.worst))
  }

  ghost predicate WayIn(d: Destination, original: seq<nat>, plan: BlockPlan, outward: PathOption)
    requires PlanFits(original, plan)
  {
    var xs := outward.intermediates;
    && Distinct(xs) && Avoids(xs, d.unavailable) && Offered(d, 0, xs) && |xs| <= plan.maxAddedTracks
    && outward.route == Entry(original, plan, xs)
    && WalkCost(FixedAdjacent(d.adjacent), Lead(original, plan), xs + [BlockOf(original, plan)[0]]) ==
       Some(Cost(outward.sum, outward.worst))
  }

  ghost predicate WayBack(d: Destination, original: seq<nat>, plan: BlockPlan, outward: PathOption,
                          returning: PathOption)
    requires PlanFits(original, plan) && plan.rejoinsQueue
  {
    var ys := returning.intermediates;
    var before := Lead(original, plan) + outward.intermediates + BlockOf(original, plan);
    && Distinct(ys) && Avoids(ys, AlsoUnavailable(d.unavailable, outward.route)) && Offered(d, 1, ys)
    && |ys| <= Minus(plan.maxAddedTracks, |outward.intermediates|)
    && returning.route == before + ys + Tail(original, plan)
    && WalkCost(FixedAdjacent(d.adjacent), before, ys + Tail(original, plan)) ==
        Some(Cost(returning.sum, returning.worst))
    && RightAnchorSafe(d.policy, d.history + before + ys + Tail(original, plan), Context(d, original, plan))
  }

  lemma OutwardIsWayIn(d: Destination, original: seq<nat>, plan: BlockPlan, outward: PathOption)
    requires PlanFits(original, plan) && GapsMatch(d, original, plan)
    requires GoodOption(OutwardRequest(d, original, plan), 0, outward)
    ensures WayIn(d, original, plan, outward)
  {
    hide GoodOption, OutwardRequest, Lead, BlockOf, WalkCost, Distinct, Avoids, RightAnchorSafe, FixedAdjacent;
    OutwardAsked(d, original, plan);
    OptionBasics(OutwardRequest(d, original, plan), 0, outward);
    OptionCost(OutwardRequest(d, original, plan), 0, outward);
  }

  lemma ReturningIsWayBack(d: Destination, original: seq<nat>, plan: BlockPlan, outward: PathOption,
                           returning: PathOption)
    requires PlanFits(original, plan) && GapsMatch(d, original, plan) && plan.rejoinsQueue
    requires GoodOption(ReturnRequest(d, original, plan, outward.intermediates), Context(d, original, plan), returning)
    requires WayIn(d, original, plan, outward)
    ensures WayBack(d, original, plan, outward, returning)
  {
    hide GoodOption, ReturnRequest, Lead, BlockOf, WalkCost, Distinct, Avoids, RightAnchorSafe, FixedAdjacent,
      AlsoUnavailable;
    var tail := Tail(original, plan);
    assert tail == [tail[0]] && |d.gaps| == 2;
    hide Tail, GapsMatch;
    var r, ys := ReturnRequest(d, original, plan, outward.intermediates), returning.intermediates;
    ReturnAsked(d, original, plan, outward.intermediates);
    OptionBasics(r, Context(d, original, plan), returning);
    OptionCost(r, Context(d, original, plan), returning);
    assert FullRoute(r, ys) == d.history + (Lead(original, plan) + outward.intermediates + BlockOf(original, plan)) +
           ys + tail;
  }

  /** The checks that every finished route must pass. */
  predicate Passes(d: Destination, original: seq<nat>, plan: BlockPlan, route: seq<nat>)
    requires PlanFits(original, plan)
  {
    BridgesRepeatSafe(d, route, original) && BlockContextSafe(d, route, BlockOf(original, plan))
  }

  /** What the two checks let through without a rejoin anchor. */
  lemma OneBoundaryIsGood(d: Destination, original: seq<nat>, plan: BlockPlan, outward: PathOption,
                          o: DestinationOption)
    requires PlanFits(original, plan) && GapsMatch(d, original, plan) && !plan.rejoinsQueue
    requires GoodOption(OutwardRequest(d, original, plan), 0, outward)
    requires o.route == outward.route + BlockOf(original, plan)[1..] && o.added == |outward.intermediates|
    requires o.sum == outward.sum && o.worst == outward.worst
    requires Passes(d, original, plan, o.route)
    ensures GoodDestination(d, original, plan, o)
  {
    hide BridgesRepeatSafe, BlockContextSafe, RightAnchorSafe, GoodOption, BlockClear, OriginalsOwned;
    var r := OutwardRequest(d, original, plan);
    var xs, back, block := outward.intermediates, [], BlockOf(original, plan);
    OutwardSplits(original, plan);
    OptionBasics(r, 0, outward);
    BlockJoins(Lead(original, plan), xs, block, []);
    assert xs + back == xs;
    assert Shape(d, original, plan, xs, back, o);
    if OriginalsOwned(d, original) {
      ContextCheckMeaning(d, original, plan, xs, back, o);
    }
    assert SafeOption(d, original, plan, xs, back, o);
    OptionCost(r, 0, outward);
    assert GoodVia(d, original, plan, xs, back, o);
  }

  lemma OptionCost(r: Request, ignored: nat, o: PathOption)
    requires GoodOption(r, ignored, o)
    ensures WalkCost(r.score, r.routePrefix, o.intermediates + [r.rightAnchor]) == Some(Cost(o.sum, o.worst))
  {
    hide AvailableTracks, WalkCost, GeneratedSafe, RightAnchorSafe, GuidanceSum;
  }

  lemma BlockJoins(lead: seq<nat>, xs: seq<nat>, block: seq<nat>, rest: seq<nat>)
    requires block != []
    ensures lead + xs + [block[0]] + block[1..] + rest == lead + xs + block + rest
    ensures lead + xs + block + [] + [] == lead + xs + block
    ensures lead + xs + [block[0]] + block[1..] == lead + xs + block
  {
    assert block == [block[0]] + block[1..];
  }

  lemma ReturnSplits(original: seq<nat>, plan: BlockPlan, outward: seq<nat>)
    requires PlanFits(original, plan) && plan.rejoinsQueue
    ensures var source := ReturnSource(original, plan, outward);
            && source[..|source| - 1] == Lead(original, plan) + outward + BlockOf(original, plan)
            && source[|source| - 1] == Tail(original, plan)[0]
  {
    var source := ReturnSource(original, plan, outward);
    BlockJoins(Lead(original, plan), outward, BlockOf(original, plan), Tail(original, plan));
    assert source == Lead(original, plan) + outward + BlockOf(original, plan) + Tail(original, plan);
  }

  lemma RejoinFromSearch(d: Destination, original: seq<nat>, plan: BlockPlan, xs: seq<nat>, back: seq<nat>,
                         full: seq<nat>, ignored: nat)
    requires PlanFits(original, plan) && plan.rejoinsQueue
    requires full == d.history + (Lead(original, plan) + xs + BlockOf(original, plan)) + back + Tail(original, plan)
    requires ignored == |d.history| + |Lead(original, plan)|
    requires RightAnchorSafe(d.policy, full, ignored)
    ensures RejoinClear(d, original, plan, xs, back)
  {
    hide TooClose, RightAnchorSafe, Lead, BlockOf;
    var block, rejoin := BlockOf(original, plan), Tail(original, plan)[0];
    var since := xs + block + back;
    RightAnchorPairs(d.policy, full, ignored);
    assert full == d.history + Lead(original, plan) + since + [rejoin];
    forall k | 0 <= k < |since| ensures !TooClose(d.policy, since[k], rejoin, |since| - k) {
      var at := ignored + k;
      assert full[at] == since[k] && full[|full| - 1] == rejoin;
      assert |full| - 1 - at == |since| - k;
    }
  }

  lemma BothBridgesDistinct(xs: seq<nat>, ys: seq<nat>, owned: seq<nat>, route: seq<nat>)
    requires Distinct(xs) && Distinct(ys) && Avoids(xs, owned)
    requires Avoids(ys, AlsoUnavailable(owned, route)) && forall i | 0 <= i < |xs| :: xs[i] in route
    ensures Distinct(xs + ys) && Avoids(xs + ys, owned)
  {
    DistinctJoin(xs, ys);
    AvoidsJoin(xs, ys, owned);
  }

  /** What the checks let through with a rejoin anchor. */
  lemma TwoBoundariesAreGood(d: Destination, original: seq<nat>, plan: BlockPlan, outward: PathOption,
                             returning: PathOption, o: DestinationOption)
    requires PlanFits(original, plan) && plan.rejoinsQueue
    requires WayIn(d, original, plan, outward) && WayBack(d, original, plan, outward, returning)
    requires o == Combined(outward, returning) && Passes(d, original, plan, o.route)
    ensures GoodDestination(d, original, plan, o)
  {
    hide WayIn, WayBack, BridgesRepeatSafe, BlockContextSafe, BlockClear, OriginalsOwned, Shape, RejoinClear,
      BoundaryCost;
    TwoBoundariesShape(d, original, plan, outward, returning, o);
    TwoBoundariesRejoin(d, original, plan, outward, returning);
    TwoBoundariesCost(d, original, plan, outward, returning, o);
    if OriginalsOwned(d, original) {
      ContextCheckMeaning(d, original, plan, outward.intermediates, returning.intermediates, o);
    }
    assert SafeOption(d, original, plan, outward.intermediates, returning.intermediates, o);
    assert GoodVia(d, original, plan, outward.intermediates, returning.intermediates, o);
  }

  lemma TwoBoundariesShape(d: Destination, original: seq<nat>, plan: BlockPlan, outward: PathOption,
                           returning: PathOption, o: DestinationOption)
    requires PlanFits(original, plan) && plan.rejoinsQueue
    requires WayIn(d, original, plan, outward) && WayBack(d, original, plan, outward, returning)
    requires o.route == returning.route && o.added == |outward.intermediates| + |returning.intermediates|
    ensures Shape(d, original, plan, outward.intermediates, returning.intermediates, o)
  {
    hide RightAnchorSafe, Distinct, Avoids, Offered, WalkCost, AlsoUnavailable, Lead, BlockOf, Tail;
    var xs, ys := outward.intermediates, returning.intermediates;
    BridgesOnRoute(Lead(original, plan), xs, BlockOf(original, plan)[0]);
    BothBridgesDistinct(xs, ys, d.unavailable, outward.route);
  }

  lemma TwoBoundariesCost(d: Destination, original: seq<nat>, plan: BlockPlan, outward: PathOption,
                          returning: PathOption, o: DestinationOption)
    requires PlanFits(original, plan) && plan.rejoinsQueue
    requires WayIn(d, original, plan, outward) && WayBack(d, original, plan, outward, returning)
    requires o.sum == outward.sum + returning.sum && o.worst == MaxReal(outward.worst, returning.worst)
    ensures BoundaryCost(d, original, plan, outward.intermediates, returning.intermediates) ==
            Some(Cost(o.sum, o.worst))
  {
    hide RightAnchorSafe, Distinct, Avoids, Offered, WalkCost, FixedAdjacent, AlsoUnavailable, Lead, BlockOf;
    assert [Tail(original, plan)[0]] == Tail(original, plan);
  }

  lemma BridgesOnRoute(lead: seq<nat>, xs: seq<nat>, x: nat)
    ensures forall i | 0 <= i < |xs| :: xs[i] in lead + xs + [x]
  {
    var route := lead + xs + [x];
    forall i | 0 <= i < |xs| ensures xs[i] in route {
      assert route[|lead| + i] == xs[i];
    }
  }

  lemma TwoBoundariesRejoin(d: Destination, original: seq<nat>, plan: BlockPlan, outward: PathOption,
                            returning: PathOption)
    requires PlanFits(original, plan) && plan.rejoinsQueue
    requires WayIn(d, original, plan, outward) && WayBack(d, original, plan, outward, returning)
    ensures RejoinClear(d, original, plan, outward.intermediates, returning.intermediates)
  {
    hide RightAnchorSafe, Distinct, Avoids, Offered, WalkCost, FixedAdjacent, AlsoUnavailable, RejoinClear, Lead,
      BlockOf, Tail;
    var before := Lead(original, plan) + outward.intermediates + BlockOf(original, plan);
    RejoinFromSearch(d, original, plan, outward.intermediates, returning.intermediates,
                     d.history + before + returning.intermediates + Tail(original, plan), Context(d, original, plan));
  }

  ghost predicate AllDestinations(d: Destination, original: seq<nat>, plan: BlockPlan, options: seq<DestinationOption>)
    requires PlanFits(original, plan)
  {
    forall o | o in options :: GoodDestination(d, original, plan, o)
  }

  function Straight(original: seq<nat>, plan: BlockPlan, outward: PathOption): DestinationOption
    requires PlanFits(original, plan)
  {
    DestinationOption(|outward.intermediates|, outward.route + BlockOf(original, plan)[1..], outward.sum, outward.worst)
  }

  /** Every good option that enters the block this way is there. */
  ghost predicate Covered(d: Destination, original: seq<nat>, plan: BlockPlan, outward: PathOption,
                          options: seq<DestinationOption>)
    requires PlanFits(original, plan)
  {
    forall back: seq<nat>, o | GoodVia(d, original, plan, outward.intermediates, back, o) :: o in options
  }

  /** A good option passes the checks it is put to. */
  lemma GoodPasses(d: Destination, original: seq<nat>, plan: BlockPlan, outward: seq<nat>, back: seq<nat>,
                   o: DestinationOption)
    requires PlanFits(original, plan) && OriginalsOwned(d, original) && GoodVia(d, original, plan, outward, back, o)
    ensures Passes(d, original, plan, o.route)
  {
    hide BlockClear, BridgesRepeatSafe, BlockContextSafe, OriginalsOwned, RejoinClear;
    ContextCheckMeaning(d, original, plan, outward, back, o);
  }

  /** Bridges checked on the whole route are clear of all before them, of each
      other, and of what follows. */
  lemma BridgesClear(d: Destination, original: seq<nat>, before: seq<nat>, xs: seq<nat>, after: seq<nat>)
    requires BridgesRepeatSafe(d, before + xs + after, original) && Avoids(xs, original)
    ensures SafeFrom(d.policy, d.history + before + xs, |d.history + before|)
    ensures forall i, k | 0 <= i < |xs| && 0 <= k < |after| :: !TooClose(d.policy, xs[i], after[k], |xs| - i + k)
  {
    hide TooClose, PositionSafe, BridgesRepeatSafe;
    var base, visited := |d.history + before|, d.history + before + xs;
    var full := visited + after;
    forall position | base <= position < |visited| ensures PositionSafe(d.policy, full, position) {
      BridgeChecked(d, original, before, xs, after, position);
    }
    ClearOfEarlier(d.policy, visited, after, base);
    forall i, k | 0 <= i < |xs| && 0 <= k < |after| ensures !TooClose(d.policy, xs[i], after[k], |xs| - i + k) {
      var at := |visited| + k;
      PositionSafePairs(d.policy, full, base + i);
      assert full[at] == after[k] && full[base + i] == xs[i];
      assert at - (base + i) == |xs| - i + k;
    }
  }

  lemma BridgeChecked(d: Destination, original: seq<nat>, before: seq<nat>, xs: seq<nat>, after: seq<nat>,
                      position: nat)
    requires BridgesRepeatSafe(d, before + xs + after, original) && Avoids(xs, original)
    requires |d.history + before| <= position < |d.history + before + xs|
    ensures PositionSafe(d.policy, d.history + before + xs + after, position)
  {
    hide PositionSafe;
    var full := d.history + (before + xs + after);
    assert full == d.history + before + xs + after;
    assert full[position] == xs[position - |d.history + before|];
  }

  lemma ClearOfEarlier(p: Policy, visited: seq<nat>, after: seq<nat>, base: nat)
    requires forall position | base <= position < |visited| :: PositionSafe(p, visited + after, position)
    ensures SafeFrom(p, visited, base)
  {
    hide TooClose, PositionSafe;
    var full := visited + after;
    forall l, r | 0 <= l < r < |visited| && base <= r ensures !TooClose(p, visited[l], visited[r], r - l) {
      PositionSafePairs(p, full, r);
      assert full[l] == visited[l] && full[r] == visited[r];
    }
  }

  lemma AvoidsOriginals(d: Destination, original: seq<nat>, xs: seq<nat>)
    requires OriginalsOwned(d, original) && Avoids(xs, d.unavailable)
    ensures Avoids(xs, original)
  {
  }

  /** The way into the block of a good option is a path the outward search
      is looking for. */
  lemma OutwardIsFeasible(d: Destination, original: seq<nat>, plan: BlockPlan, outward: seq<nat>, back: seq<nat>,
                          o: DestinationOption)
    requires PlanFits(original, plan) && GapsMatch(d, original, plan) && OriginalsOwned(d, original)
    requires GoodVia(d, original, plan, outward, back, o)
    ensures Feasible(OutwardRequest(d, original, plan), 0, outward)
  {
    hide PairsSafe, SafeOption, GeneratedSafe, RightAnchorSafe, WalkCost, AvailableTracks, OriginalsOwned,
      OutwardRequest, GapsMatch, Lead, BlockOf, Tail;
    var r := OutwardRequest(d, original, plan);
    OutwardAsked(d, original, plan);
    BridgesSplit(outward, back, d.unavailable);
    AvailableIsOffered(r, outward);
    OutwardPairs(d, original, plan, outward, back, o);
    SafetyByPairs(r, 0, outward);
  }

  lemma OutwardPairs(d: Destination, original: seq<nat>, plan: BlockPlan, outward: seq<nat>, back: seq<nat>,
                     o: DestinationOption)
    requires PlanFits(original, plan) && GapsMatch(d, original, plan) && OriginalsOwned(d, original)
    requires Shape(d, original, plan, outward, back, o) && SafeOption(d, original, plan, outward, back, o)
    ensures PairsSafe(OutwardRequest(d, original, plan), 0, outward)
  {
    hide TooClose, BridgesRepeatSafe, OriginalsOwned, RejoinClear, SafeFrom, BlockClear, Distinct, Avoids, Offered,
      OutwardRequest, GapsMatch, Lead, Tail;
    var r, lead, block := OutwardRequest(d, original, plan), Lead(original, plan), BlockOf(original, plan);
    var after := block + back + Tail(original, plan);
    OutwardAsked(d, original, plan);
    BridgesSplit(outward, back, d.unavailable);
    AvoidsOriginals(d, original, outward);
    assert o.route == lead + outward + after;
    BridgesClear(d, original, lead, outward, after);
    forall i | 0 <= i < |outward| ensures !TooClose(d.policy, outward[i], r.rightAnchor, |outward| - i) {
      assert !TooClose(d.policy, outward[i], after[0], |outward| - i + 0);
    }
    FirstOfBlockClear(d.policy, d.history + lead, outward, block);
  }

  lemma BridgesSplit(outward: seq<nat>, back: seq<nat>, owned: seq<nat>)
    requires Distinct(outward + back) && Avoids(outward + back, owned)
    ensures Distinct(outward) && Distinct(back) && Avoids(outward, owned) && Avoids(back, owned)
    ensures Avoids(back, outward)
  {
    var all := outward + back;
    assert forall i | 0 <= i < |outward| :: outward[i] == all[i];
    assert forall i | 0 <= i < |back| :: back[i] == all[|outward| + i];
  }

  lemma FirstOfBlockClear(p: Policy, context: seq<nat>, outward: seq<nat>, block: seq<nat>)
    requires block != [] && BlockClear(p, context + outward, block)
    ensures forall k | 0 <= k < |context| :: !TooClose(p, context[k], block[0], |context| - k + |outward|)
  {
    hide TooClose;
    var all := context + outward;
    forall k | 0 <= k < |context| ensures !TooClose(p, context[k], block[0], |context| - k + |outward|) {
      assert all[k] == context[k];
      assert !TooClose(p, all[k], block[0], |all| - k + 0);
      assert |all| - k + 0 == |context| - k + |outward|;
    }
  }

  /** So is its way back, once the outward search has found the way in. */
  lemma ReturnIsFeasible(d: Destination, original: seq<nat>, plan: BlockPlan, outward: seq<nat>, back: seq<nat>,
                         o: DestinationOption)
    requires PlanFits(original, plan) && GapsMatch(d, original, plan) && OriginalsOwned(d, original) &&
             plan.rejoinsQueue
    requires GoodVia(d, original, plan, outward, back, o)
    ensures Feasible(ReturnRequest(d, original, plan, outward), Context(d, original, plan), back)
  {
    hide PairsSafe, SafeOption, GeneratedSafe, RightAnchorSafe, WalkCost, AvailableTracks, AlsoUnavailable,
      OriginalsOwned, ReturnRequest, GapsMatch, Lead, BlockOf, Tail;
    var r := ReturnRequest(d, original, plan, outward);
    ReturnAsked(d, original, plan, outward);
    BridgesSplit(outward, back, d.unavailable);
    AvoidsOriginals(d, original, back);
    ReturnAvoids(original, plan, outward, back);
    AvailableIsOffered(r, back);
    ReturnPairs(d, original, plan, outward, back, o);
    SafetyByPairs(r, Context(d, original, plan), back);
  }

  lemma ReturnPairs(d: Destination, original: seq<nat>, plan: BlockPlan, outward: seq<nat>, back: seq<nat>,
                    o: DestinationOption)
    requires PlanFits(original, plan) && GapsMatch(d, original, plan) && OriginalsOwned(d, original) &&
             plan.rejoinsQueue
    requires Shape(d, original, plan, outward, back, o) && SafeOption(d, original, plan, outward, back, o)
    ensures PairsSafe(ReturnRequest(d, original, plan, outward), Context(d, original, plan), back)
  {
    hide TooClose, BridgesRepeatSafe, OriginalsOwned, RejoinClear, SafeFrom, BlockClear, Distinct, Avoids, Offered,
      AlsoUnavailable, ReturnRequest, GapsMatch, Lead, BlockOf;
    var r, tail := ReturnRequest(d, original, plan, outward), Tail(original, plan);
    var before := Lead(original, plan) + outward + BlockOf(original, plan);
    ReturnAsked(d, original, plan, outward);
    BridgesSplit(outward, back, d.unavailable);
    AvoidsOriginals(d, original, back);
    BridgesClear(d, original, before, back, tail);
    forall i | 0 <= i < |back| ensures !TooClose(d.policy, back[i], r.rightAnchor, |back| - i) {
      assert !TooClose(d.policy, back[i], tail[0], |back| - i + 0);
    }
    SinceClear(d, original, plan, outward, back);
  }

  lemma ReturnAvoids(original: seq<nat>, plan: BlockPlan, outward: seq<nat>, back: seq<nat>)
    requires PlanFits(original, plan) && Avoids(back, original) && Avoids(back, outward)
    ensures Avoids(back, Entry(original, plan, outward))
  {
    OriginalSplits(original, plan);
    forall i | 0 <= i < |back| ensures back[i] !in Entry(original, plan, outward) {
      assert back[i] !in original && back[i] !in outward;
    }
  }

  lemma SinceClear(d: Destination, original: seq<nat>, plan: BlockPlan, outward: seq<nat>, back: seq<nat>)
    requires PlanFits(original, plan) && plan.rejoinsQueue && RejoinClear(d, original, plan, outward, back)
    ensures var context := d.history + (Lead(original, plan) + outward + BlockOf(original, plan));
            forall k | Context(d, original, plan) <= k < |context| ::
              !TooClose(d.policy, context[k], Tail(original, plan)[0], |context| - k + |back|)
  {
    hide TooClose;
    var context := d.history + (Lead(original, plan) + outward + BlockOf(original, plan));
    var since, rejoin := outward + BlockOf(original, plan) + back, Tail(original, plan)[0];
    forall k | Context(d, original, plan) <= k < |context|
      ensures !TooClose(d.policy, context[k], rejoin, |context| - k + |back|)
    {
      var at := k - Context(d, original, plan);
      assert context[k] == since[at];
      assert |since| - at == |context| - k + |back|;
    }
  }

  /** Joined with the search's way back, the way in gives the good option itself. */
  lemma CombinedIsGood(d: Destination, original: seq<nat>, plan: BlockPlan, outward: PathOption,
                       returning: PathOption, o: DestinationOption)
    requires PlanFits(original, plan) && plan.rejoinsQueue
    requires WayIn(d, original, plan, outward) && WayBack(d, original, plan, outward, returning)
    requires GoodVia(d, original, plan, outward.intermediates, returning.intermediates, o)
    ensures Combined(outward, returning) == o
  {
    hide WayIn, WayBack, SafeOption, BoundaryCost, Lead, BlockOf, Tail, Distinct, Avoids, Offered;
    var c := Combined(outward, returning);
    TwoBoundariesShape(d, original, plan, outward, returning, c);
    TwoBoundariesCost(d, original, plan, outward, returning, c);
  }

  lemma StraightIsGood(d: Destination, original: seq<nat>, plan: BlockPlan, outward: PathOption, back: seq<nat>,
                       o: DestinationOption)
    requires PlanFits(original, plan) && GapsMatch(d, original, plan) && !plan.rejoinsQueue
    requires GoodOption(OutwardRequest(d, original, plan), 0, outward)
    requires GoodVia(d, original, plan, outward.intermediates, back, o)
    ensures Straight(original, plan, outward) == o
  {
    hide GoodOption, SafeOption, WalkCost;
    var r := OutwardRequest(d, original, plan);
    OutwardSplits(original, plan);
    OptionBasics(r, 0, outward);
    OptionCost(r, 0, outward);
    BlockJoins(Lead(original, plan), outward.intermediates, BlockOf(original, plan), []);
  }
}
