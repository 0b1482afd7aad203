/** The layered beam search between two route anchors: what a complete path
    is, what a partial path is, and how the per-step tests relate the two. */
module AnchoredPath {
  import opened Wrappers
  import opened Repeats
  import opened Ordering

  /** Acoustic distances are never negative; a non-finite score is no leg. */
  type Distance = x: real | 0.0 <= x witness 0.0
  type Scorer = (seq<nat>, nat) -> Option<Distance>

  datatype Candidate = Candidate(track: nat, guidance: real)

  datatype Config = Config(
    maxIntermediates: nat, candidateLimit: nat, beamWidth: nat,
    alternativesPerCount: nat, variationPercent: nat)

  /** `variationKey` stands for the seeded mixing of a path: any fixed
      function of the path will do. */
  datatype Request = Request(
    routePrefix: seq<nat>, history: seq<nat>, unavailable: seq<nat>,
    leftAnchor: nat, rightAnchor: nat, candidates: seq<Candidate>,
    policy: Policy, config: Config, score: Scorer, variationKey: seq<nat> -> nat)

  datatype PathError =
    | PrefixMustEndAtLeftAnchor
    | AnchorsMustDiffer
    | LimitsMustBePositive
    | AlternativesMustBePositive
    | VariationOutOfRange
    | InvalidTrackIndex(index: nat)

  function CandidateTracks(candidates: seq<Candidate>): seq<nat> {
    seq(|candidates|, i requires 0 <= i < |candidates| => candidates[i].track)
  }

  function ReferencedTracks(r: Request): seq<nat> {
    r.routePrefix + r.history + r.unavailable + [r.leftAnchor, r.rightAnchor] + CandidateTracks(r.candidates)
  }

  /** The request checks, in order. */
  function Validate(r: Request): Option<PathError> {
    if r.routePrefix == [] || r.routePrefix[|r.routePrefix| - 1] != r.leftAnchor then Some(PrefixMustEndAtLeftAnchor)
    else if r.leftAnchor == r.rightAnchor then Some(AnchorsMustDiffer)
    else if r.config.candidateLimit == 0 || r.config.beamWidth == 0 then Some(LimitsMustBePositive)
    else if r.config.alternativesPerCount == 0 then Some(AlternativesMustBePositive)
    else if r.config.variationPercent > 100 then Some(VariationOutOfRange)
    else match FirstInvalid(r.policy, ReferencedTracks(r))
      case Some(index) => Some(InvalidTrackIndex(index))
      case None => None
  }

  /** Every track the request refers to is in the library. */
  ghost predicate TracksKnown(r: Request) {
    && ValidIndices(r.policy, r.routePrefix) && ValidIndices(r.policy, r.history)
    && ValidIndices(r.policy, r.unavailable)
    && r.leftAnchor < |r.policy.tracks| && r.rightAnchor < |r.policy.tracks|
    && forall i | 0 <= i < |r.candidates| :: r.candidates[i].track < |r.policy.tracks|
  }

  /** The first unknown track: prefix, history, owned tracks, anchors, candidates. */
  ghost predicate FirstUnknown(r: Request, x: nat) {
    if !ValidIndices(r.policy, r.routePrefix) then FirstUnknownIn(r.policy, r.routePrefix, x)
    else if !ValidIndices(r.policy, r.history) then FirstUnknownIn(r.policy, r.history, x)
    else if !ValidIndices(r.policy, r.unavailable) then FirstUnknownIn(r.policy, r.unavailable, x)
    else if r.leftAnchor >= |r.policy.tracks| then x == r.leftAnchor
    else if r.rightAnchor >= |r.policy.tracks| then x == r.rightAnchor
    else exists i :: 0 <= i < |r.candidates| && r.candidates[i].track == x >= |r.policy.tracks| &&
                     forall j | 0 <= j < i :: r.candidates[j].track < |r.policy.tracks|
  }

  lemma KnownIsValid(r: Request)
    ensures TracksKnown(r) <==> ValidIndices(r.policy, ReferencedTracks(r))
  {
    var p, tracks := r.policy, CandidateTracks(r.candidates);
    ValidIndicesJoin(p, r.routePrefix, r.history);
    ValidIndicesJoin(p, r.routePrefix + r.history, r.unavailable);
    ValidIndicesJoin(p, r.routePrefix + r.history + r.unavailable, [r.leftAnchor, r.rightAnchor]);
    ValidIndicesJoin(p, r.routePrefix + r.history + r.unavailable + [r.leftAnchor, r.rightAnchor], tracks);
    AnchorsKnown(p, r.leftAnchor, r.rightAnchor);
    CandidatesKnown(r);
  }

  lemma AnchorsKnown(p: Policy, left: nat, right: nat)
    ensures ValidIndices(p, [left, right]) <==> left < |p.tracks| && right < |p.tracks|
  {
    var anchors := [left, right];
    if ValidIndices(p, anchors) {
      assert anchors[0] < |p.tracks| && anchors[1] < |p.tracks|;
    }
  }

  lemma CandidatesKnown(r: Request)
    ensures ValidIndices(r.policy, CandidateTracks(r.candidates)) <==>
            forall i | 0 <= i < |r.candidates| :: r.candidates[i].track < |r.policy.tracks|
  {
    var tracks := CandidateTracks(r.candidates);
    if ValidIndices(r.policy, tracks) {
      forall i | 0 <= i < |r.candidates| ensures r.candidates[i].track < |r.policy.tracks| {
        assert tracks[i] == r.candidates[i].track;
      }
    }
  }

  lemma UnknownIsFirst(r: Request, x: nat)
    requires FirstUnknownIn(r.policy, ReferencedTracks(r), x)
    ensures FirstUnknown(r, x)
  {
    hide ValidIndices, FirstUnknownIn;
    var p, tracks, anchors := r.policy, CandidateTracks(r.candidates), [r.leftAnchor, r.rightAnchor];
    FirstUnknownJoin(p, r.routePrefix + r.history + r.unavailable + anchors, tracks, x);
    ValidIndicesJoin(p, r.routePrefix + r.history + r.unavailable, anchors);
    ValidIndicesJoin(p, r.routePrefix + r.history, r.unavailable);
    ValidIndicesJoin(p, r.routePrefix, r.history);
    AnchorsKnown(p, r.leftAnchor, r.rightAnchor);
    if ValidIndices(p, r.routePrefix + r.history + r.unavailable + anchors) {
      UnknownCandidate(r, x);
    } else {
      FirstUnknownJoin(p, r.routePrefix + r.history + r.unavailable, anchors, x);
      if ValidIndices(p, r.routePrefix + r.history + r.unavailable) {
        UnknownAnchor(p, r.leftAnchor, r.rightAnchor, x);
      } else {
        FirstUnknownJoin(p, r.routePrefix + r.history, r.unavailable, x);
        if !ValidIndices(p, r.routePrefix + r.history) {
          FirstUnknownJoin(p, r.routePrefix, r.history, x);
        }
      }
    }
  }

  lemma UnknownCandidate(r: Request, x: nat)
    requires FirstUnknownIn(r.policy, CandidateTracks(r.candidates), x)
    ensures exists i :: 0 <= i < |r.candidates| && r.candidates[i].track == x >= |r.policy.tracks| &&
                        forall j | 0 <= j < i :: r.candidates[j].track < |r.policy.tracks|
  {
    var p, tracks := r.policy, CandidateTracks(r.candidates);
    var i :| 0 <= i < |tracks| && tracks[i] == x >= |p.tracks| && ValidIndices(p, tracks[..i]);
    forall j | 0 <= j < i ensures r.candidates[j].track < |p.tracks| {
      assert tracks[..i][j] < |p.tracks|;
    }
  }

  lemma UnknownAnchor(p: Policy, left: nat, right: nat, x: nat)
    requires FirstUnknownIn(p, [left, right], x)
    ensures x == if left >= |p.tracks| then left else right
  {
    var anchors := [left, right];
    var i :| 0 <= i < |anchors| && anchors[i] == x >= |p.tracks| && ValidIndices(p, anchors[..i]);
    if i == 1 {
      assert anchors[..i][0] < |p.tracks|;
    }
  }

  /** Which request is refused, and with which error, by its own properties:
      nothing else is refused. */
  ghost predicate RefusedRightly(r: Request, refusal: Option<PathError>) {
    var anchored := r.routePrefix != [] && r.routePrefix[|r.routePrefix| - 1] == r.leftAnchor;
    var apart := anchored && r.leftAnchor != r.rightAnchor;
    var limited := apart && r.config.candidateLimit >= 1 && r.config.beamWidth >= 1;
    var keeping := limited && r.config.alternativesPerCount >= 1;
    var varied := keeping && r.config.variationPercent <= 100;
    && (refusal == Some(PrefixMustEndAtLeftAnchor) <==> !anchored)
    && (refusal == Some(AnchorsMustDiffer) <==> anchored && !apart)
    && (refusal == Some(LimitsMustBePositive) <==> apart && !limited)
    && (refusal == Some(AlternativesMustBePositive) <==> limited && !keeping)
    && (refusal == Some(VariationOutOfRange) <==> keeping && !varied)
    && (refusal.Some? && refusal.value.InvalidTrackIndex? <==> varied && !TracksKnown(r))
    && (refusal.Some? && refusal.value.InvalidTrackIndex? ==> FirstUnknown(r, refusal.value.index))
    && (refusal.None? <==> varied && TracksKnown(r))
  }

  lemma ValidationDecides(r: Request)
    ensures RefusedRightly(r, Validate(r))
  {
    hide ValidIndices, ReferencedTracks, TracksKnown, FirstUnknown;
    KnownIsValid(r);
    var first := FirstInvalid(r.policy, ReferencedTracks(r));
    if first.Some? {
      assert FirstUnknownIn(r.policy, ReferencedTracks(r), first.value);
      UnknownIsFirst(r, first.value);
    }
  }

  // ----- candidates -----

  /** Guidance by available track; a later mention overwrites an earlier one. */
  function GuidanceTable(candidates: seq<Candidate>, unavailable: seq<nat>): map<nat, real> {
    if candidates == [] then map[]
    else
      var last := candidates[|candidates| - 1];
      var table := GuidanceTable(candidates[..|candidates| - 1], unavailable);
      if last.track in unavailable then table else table[last.track := last.guidance]
  }

  predicate StrictlyAscending(tracks: seq<nat>) {
    forall i, j | 0 <= i < j < |tracks| :: tracks[i] < tracks[j]
  }

  function InsertTrack(track: nat, tracks: seq<nat>): (r: seq<nat>)
    requires StrictlyAscending(tracks)
    ensures StrictlyAscending(r)
    ensures forall t :: t in r <==> t == track || t in tracks
    ensures |r| <= |tracks| + 1
  {
    if tracks == [] then [track]
    else if track < tracks[0] then [track] + tracks
    else if track == tracks[0] then tracks
    else
      assert forall t :: t in tracks <==> t == tracks[0] || t in tracks[1..];
      var rest := InsertTrack(track, tracks[1..]);
      assert forall i | 0 <= i < |rest| :: rest[i] in rest;
      [tracks[0]] + rest
  }

  /** The keys of the guidance table, in ascending order. */
  function AvailableTracks(candidates: seq<Candidate>, unavailable: seq<nat>): (r: seq<nat>)
    ensures StrictlyAscending(r)
    ensures forall t :: t in r <==> t in GuidanceTable(candidates, unavailable)
    ensures |r| <= |candidates|
  {
    if candidates == [] then []
    else
      var last := candidates[|candidates| - 1];
      var tracks := AvailableTracks(candidates[..|candidates| - 1], unavailable);
      if last.track in unavailable then tracks else InsertTrack(last.track, tracks)
  }

  function Available(r: Request): seq<nat> {
    AvailableTracks(r.candidates, r.unavailable)
  }

  lemma {:induction false} GuidanceTableMeaning(candidates: seq<Candidate>, unavailable: seq<nat>, track: nat)
    ensures track in GuidanceTable(candidates, unavailable) <==>
            track !in unavailable && exists i :: 0 <= i < |candidates| && candidates[i].track == track
  {
    if candidates != [] {
      var rest := candidates[..|candidates| - 1];
      GuidanceTableMeaning(rest, unavailable, track);
      assert forall i | 0 <= i < |rest| :: rest[i] == candidates[i];
      assert candidates[|candidates| - 1].track == track && track !in unavailable ==>
          track in GuidanceTable(candidates, unavailable);
    }
  }

  /** A track is available when some candidate names it and the outer plan
      does not own it. */
  lemma AvailableMeaning(r: Request, track: nat)
    ensures track in Available(r) <==>
            track !in r.unavailable && exists i :: 0 <= i < |r.candidates| && r.candidates[i].track == track
  {
    GuidanceTableMeaning(r.candidates, r.unavailable, track);
  }

  // ----- scores -----

  datatype Cost = Cost(sum: real, worst: real)

  function MaxReal(a: real, b: real): real {
    if a < b then b else a
  }

  function AddLeg(cost: Option<Cost>, leg: Option<Distance>): Option<Cost> {
    if cost.None? || leg.None? then None
    else Some(Cost(cost.value.sum + leg.value, MaxReal(cost.value.worst, leg.value)))
  }

  function AddCosts(a: Option<Cost>, b: Option<Cost>): Option<Cost> {
    if a.None? || b.None? then None
    else Some(Cost(a.value.sum + b.value.sum, MaxReal(a.value.worst, b.value.worst)))
  }

  /** One path comes no later than another: smaller worst leg, then smaller
      sum, then larger guidance, then the earlier track sequence. */
  ghost predicate Preferred(a: Cost, aGuidance: real, xs: seq<nat>, b: Cost, bGuidance: real, ys: seq<nat>) {
    if a.worst != b.worst then a.worst < b.worst
    else if a.sum != b.sum then a.sum < b.sum
    else if aGuidance != bGuidance then aGuidance > bGuidance
    else ComesFirst(xs, ys)
  }

  /** Scores a leg by its two end tracks alone. */
  function FixedAdjacent(adjacent: (nat, nat) -> Option<Distance>): Scorer {
    (prefix: seq<nat>, next: nat) => if prefix == [] then None else adjacent(prefix[|prefix| - 1], next)
  }

  /** Sum and worst leg of walking `xs` after `prefix`; None when a leg is missing. */
  function WalkCost(score: Scorer, prefix: seq<nat>, xs: seq<nat>): Option<Cost> {
    if xs == [] then Some(Cost(0.0, 0.0))
    else
      var before := xs[..|xs| - 1];
      AddLeg(WalkCost(score, prefix, before), score(prefix + before, xs[|xs| - 1]))
  }

  lemma WalkCostStep(score: Scorer, prefix: seq<nat>, xs: seq<nat>, x: nat)
    ensures WalkCost(score, prefix, xs + [x]) == AddLeg(WalkCost(score, prefix, xs), score(prefix + xs, x))
  {
    assert (xs + [x])[..|xs|] == xs;
  }

  lemma OneLeg(score: Scorer, prefix: seq<nat>, x: nat)
    ensures WalkCost(score, prefix, [x]) == AddLeg(Some(Cost(0.0, 0.0)), score(prefix, x))
  {
    WalkCostStep(score, prefix, [], x);
    assert [] + [x] == [x] && prefix + [] == prefix;
  }

  lemma TwoLegs(score: Scorer, prefix: seq<nat>, x: nat, y: nat)
    ensures WalkCost(score, prefix, [x, y]) ==
            AddLeg(AddLeg(Some(Cost(0.0, 0.0)), score(prefix, x)), score(prefix + [x], y))
  {
    OneLeg(score, prefix, x);
    WalkCostStep(score, prefix, [x], y);
    assert [x] + [y] == [x, y];
  }

  lemma {:induction false} WalkCostPrefix(score: Scorer, prefix: seq<nat>, xs: seq<nat>, k: nat)
    requires k <= |xs| && WalkCost(score, prefix, xs).Some?
    ensures WalkCost(score, prefix, xs[..k]).Some?
  {
    if k < |xs| {
      WalkCostPrefix(score, prefix, xs[..|xs| - 1], k);
      assert xs[..|xs| - 1][..k] == xs[..k];
    } else {
      assert xs[..k] == xs;
    }
  }

  function GuidanceOf(r: Request, track: nat): real {
    var table := GuidanceTable(r.candidates, r.unavailable);
    if track in table then table[track] else 0.0
  }

  lemma {:induction false} LastMentionRules(candidates: seq<Candidate>, unavailable: seq<nat>, i: nat)
    requires i < |candidates| && candidates[i].track !in unavailable
    requires forall j | i < j < |candidates| :: candidates[j].track != candidates[i].track
    ensures candidates[i].track in GuidanceTable(candidates, unavailable)
    ensures GuidanceTable(candidates, unavailable)[candidates[i].track] == candidates[i].guidance
  {
    var n := |candidates| - 1;
    if i < n {
      LastMentionRules(candidates[..n], unavailable, i);
    }
  }

  /** The guidance of an available track is that of its last mention. */
  lemma GuidanceIsLastMention(r: Request, i: nat)
    requires i < |r.candidates| && r.candidates[i].track !in r.unavailable
    requires forall j | i < j < |r.candidates| :: r.candidates[j].track != r.candidates[i].track
    ensures GuidanceOf(r, r.candidates[i].track) == r.candidates[i].guidance
  {
    LastMentionRules(r.candidates, r.unavailable, i);
  }

  /** A track that is not available has none. */
  lemma OthersHaveNoGuidance(r: Request, track: nat)
    requires track !in Available(r)
    ensures GuidanceOf(r, track) == 0.0
  {
  }

  function GuidanceSum(r: Request, xs: seq<nat>): real {
    if xs == [] then 0.0
    else GuidanceSum(r, xs[..|xs| - 1]) + GuidanceOf(r, xs[|xs| - 1])
  }

  lemma GuidanceSumStep(r: Request, xs: seq<nat>, x: nat)
    ensures GuidanceSum(r, xs + [x]) == GuidanceSum(r, xs) + GuidanceOf(r, x)
  {
    assert (xs + [x])[..|xs|] == xs;
  }

  // ----- complete paths -----

  /** Listening history and route prefix: everything a repeat check sees first. */
  function RepeatPrefix(r: Request): seq<nat> {
    r.history + r.routePrefix
  }

  function Visited(r: Request, xs: seq<nat>): seq<nat> {
    RepeatPrefix(r) + xs
  }

  function FullRoute(r: Request, xs: seq<nat>): seq<nat> {
    Visited(r, xs) + [r.rightAnchor]
  }

  predicate GeneratedSafe(r: Request, xs: seq<nat>) {
    forall position | |RepeatPrefix(r)| <= position < |RepeatPrefix(r)| + |xs| ::
      PositionSafe(r.policy, FullRoute(r, xs), position)
  }

  /** Only context from `ignored` on is tested against the right anchor. */
  predicate RightAnchorSafe(p: Policy, route: seq<nat>, ignored: nat)
    requires route != []
  {
    var suffix := route[if ignored < |route| - 1 then ignored else |route| - 1..];
    PositionSafe(p, suffix, |suffix| - 1)
  }

  predicate Distinct(xs: seq<nat>) {
    forall i, j | 0 <= i < j < |xs| :: xs[i] != xs[j]
  }

  predicate FromPool(xs: seq<nat>, pool: seq<nat>) {
    forall i | 0 <= i < |xs| :: xs[i] in pool
  }

  /** A complete path: distinct available tracks, every leg finite, and the
      finished route repeat-safe at every generated position and at the anchor. */
  ghost predicate Feasible(r: Request, ignored: nat, xs: seq<nat>) {
    && Distinct(xs) && FromPool(xs, Available(r))
    && WalkCost(r.score, r.routePrefix, xs + [r.rightAnchor]).Some?
    && GeneratedSafe(r, xs)
    && RightAnchorSafe(r.policy, FullRoute(r, xs), ignored)
  }

  // ----- partial paths -----

  /** The tests one step makes: newest position clear of everything before it,
      and clear of the destination at the distance it will finally have. */
  ghost predicate StepSafe(r: Request, requested: nat, xs: seq<nat>)
    requires |xs| <= requested
  {
    && SafeFrom(r.policy, Visited(r, xs), |RepeatPrefix(r)|)
    && forall i | 0 <= i < |xs| :: !KeysTooClose(r.policy, xs[i], r.rightAnchor, requested - i)
  }

  ghost predicate Partial(r: Request, requested: nat, xs: seq<nat>)
    requires |xs| <= requested
  {
    && Distinct(xs) && FromPool(xs, Available(r))
    && WalkCost(r.score, r.routePrefix, xs).Some?
    && StepSafe(r, requested, xs)
  }

  /** The repeat tests of a finished path, pair by pair. */
  ghost predicate PairsSafe(r: Request, ignored: nat, xs: seq<nat>) {
    && SafeFrom(r.policy, Visited(r, xs), |RepeatPrefix(r)|)
    && (forall i | 0 <= i < |xs| :: !TooClose(r.policy, xs[i], r.rightAnchor, |xs| - i))
    && ContextClear(r, ignored, |xs|)
  }

  /** The tested context clears the right anchor after `n` intermediates. */
  ghost predicate ContextClear(r: Request, ignored: nat, n: nat) {
    forall k | ignored <= k < |RepeatPrefix(r)| ::
      !TooClose(r.policy, RepeatPrefix(r)[k], r.rightAnchor, |RepeatPrefix(r)| - k + n)
  }

  lemma RightAnchorPairs(p: Policy, route: seq<nat>, ignored: nat)
    requires route != []
    ensures RightAnchorSafe(p, route, ignored) <==>
            forall k | ignored <= k < |route| - 1 ::
              !TooClose(p, route[k], route[|route| - 1], |route| - 1 - k)
  {
    hide TooClose, PositionSafe;
    var cut := if ignored < |route| - 1 then ignored else |route| - 1;
    var suffix := route[cut..];
    PositionSafePairs(p, suffix, |suffix| - 1);
    if RightAnchorSafe(p, route, ignored) {
      forall k | ignored <= k < |route| - 1
        ensures !TooClose(p, route[k], route[|route| - 1], |route| - 1 - k)
      {
        assert suffix[k - cut] == route[k];
        assert !TooClose(p, suffix[k - cut], suffix[|suffix| - 1], |suffix| - 1 - (k - cut));
      }
    }
  }

  /** Separating every pair that ends in a generated position, or in the right
      anchor, is the same as the whole-route tests. */
  lemma SafetyByPairs(r: Request, ignored: nat, xs: seq<nat>)
    ensures GeneratedSafe(r, xs) && RightAnchorSafe(r.policy, FullRoute(r, xs), ignored) <==>
            PairsSafe(r, ignored, xs)
  {
    hide TooClose, PositionSafe, RightAnchorSafe;
    var full, base := FullRoute(r, xs), |RepeatPrefix(r)|;
    RightAnchorPairs(r.policy, full, ignored);
    if GeneratedSafe(r, xs) && RightAnchorSafe(r.policy, full, ignored) {
      WholeImpliesPairs(r, ignored, xs);
    }
    if PairsSafe(r, ignored, xs) {
      PairsImplyWhole(r, ignored, xs);
    }
  }

  lemma WholeImpliesPairs(r: Request, ignored: nat, xs: seq<nat>)
    requires GeneratedSafe(r, xs) && RightAnchorSafe(r.policy, FullRoute(r, xs), ignored)
    ensures PairsSafe(r, ignored, xs)
  {
    hide TooClose, PositionSafe, RightAnchorSafe;
    var full, base := FullRoute(r, xs), |RepeatPrefix(r)|;
    var visited := Visited(r, xs);
    RightAnchorPairs(r.policy, full, ignored);
    forall i, j | 0 <= i < j < |visited| && base <= j
      ensures !TooClose(r.policy, visited[i], visited[j], j - i)
    {
      assert PositionSafe(r.policy, full, j);
      PositionSafePairs(r.policy, full, j);
      assert full[i] == visited[i] && full[j] == visited[j];
    }
    forall i | 0 <= i < |xs| ensures !TooClose(r.policy, xs[i], r.rightAnchor, |xs| - i) {
      var j := base + i;
      assert PositionSafe(r.policy, full, j);
      PositionSafePairs(r.policy, full, j);
      assert full[j] == xs[i] && full[|full| - 1] == r.rightAnchor;
      assert |full| - 1 - j == |xs| - i;
    }
    forall k | ignored <= k < base
      ensures !TooClose(r.policy, RepeatPrefix(r)[k], r.rightAnchor, base - k + |xs|)
    {
      assert full[k] == RepeatPrefix(r)[k];
      assert |full| - 1 - k == base - k + |xs|;
    }
  }

  lemma PairsImplyWhole(r: Request, ignored: nat, xs: seq<nat>)
    requires PairsSafe(r, ignored, xs)
    ensures GeneratedSafe(r, xs) && RightAnchorSafe(r.policy, FullRoute(r, xs), ignored)
  {
    hide TooClose, PositionSafe, RightAnchorSafe;
    var full, base := FullRoute(r, xs), |RepeatPrefix(r)|;
    var visited := Visited(r, xs);
    forall position | base <= position < base + |xs| ensures PositionSafe(r.policy, full, position) {
      PositionSafePairs(r.policy, full, position);
      forall k | 0 <= k < position ensures !TooClose(r.policy, full[k], full[position], position - k) {
        assert full[k] == visited[k] && full[position] == visited[position];
      }
      forall j | position < j < |full| ensures !TooClose(r.policy, full[position], full[j], j - position) {
        if j < |visited| {
          assert full[j] == visited[j] && full[position] == visited[position];
        } else {
          assert full[position] == xs[position - base];
          assert j - position == |xs| - (position - base);
        }
      }
    }
    RightAnchorPairs(r.policy, full, ignored);
    forall k | ignored <= k < |full| - 1
      ensures !TooClose(r.policy, full[k], full[|full| - 1], |full| - 1 - k)
    {
      if k < base {
        assert full[k] == RepeatPrefix(r)[k];
        assert |full| - 1 - k == base - k + |xs|;
      } else {
        assert full[k] == xs[k - base];
        assert |full| - 1 - k == |xs| - (k - base);
      }
    }
  }

  /** Step tests against whole-route tests, for any path: the step tests alone
      miss only a right anchor that the path itself uses inside the track window. */
  lemma StepwiseMatchesWhole(r: Request, ignored: nat, xs: seq<nat>)
    ensures GeneratedSafe(r, xs) <==>
            && StepSafe(r, |xs|, xs)
            && (r.policy.trackWindow == 0 ||
                forall i | 0 <= i < |xs| && |xs| - i <= r.policy.trackWindow :: xs[i] != r.rightAnchor)
  {
    hide KeysTooClose, PositionSafe, RightAnchorSafe;
    var full, base := FullRoute(r, xs), |RepeatPrefix(r)|;
    RightAnchorPairs(r.policy, full, |full|);
    SafetyByPairs(r, |full|, xs);
  }

  /** When the right anchor is not a candidate the re-check of generated
      positions never rejects what the steps accepted, and the steps reject
      nothing that it would accept. */
  lemma IncrementalPruningIsExact(r: Request, xs: seq<nat>)
    requires FromPool(xs, Available(r)) && r.rightAnchor !in Available(r)
    ensures StepSafe(r, |xs|, xs) <==> GeneratedSafe(r, xs)
  {
    hide SafeFrom, KeysTooClose, PositionSafe, GeneratedSafe;
    StepwiseMatchesWhole(r, 0, xs);
  }
}
