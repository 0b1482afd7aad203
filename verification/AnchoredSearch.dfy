/** The search itself: layers of partial paths, cut to a beam, for every
    intermediate count that the right anchor allows. */
module AnchoredSearch {
  import opened Wrappers
  import opened Repeats
  import opened Ordering
  import opened AnchoredPath

  datatype PathState = PathState(
    intermediates: seq<nat>, sum: real, worst: real,
    lowerSum: real, lowerWorst: real, guidance: real)

  function PartialKey(s: PathState): Key {
    Key(0, s.lowerWorst, s.lowerSum, s.guidance, s.intermediates)
  }

  function CompleteKey(s: PathState): Key {
    Key(0, s.worst, s.sum, s.guidance, s.intermediates)
  }

  /** The state of a path before any intermediate. */
  function StartState(direct: Option<Distance>, requested: nat): PathState {
    var d: real := if direct.Some? then direct.value else 0.0;
    PathState([], 0.0, 0.0, d, d / (requested + 1) as real, 0.0)
  }

  /** One step of one state: None when a repeat test or a missing leg stops it. */
  function Extend(r: Request, requested: nat, layer: nat, s: PathState, candidate: nat): Option<PathState>
    requires layer < requested
  {
    var partial := Visited(r, s.intermediates) + [candidate];
    var edge := r.score(r.routePrefix + s.intermediates, candidate);
    if KeysTooClose(r.policy, candidate, r.rightAnchor, requested - layer) then None
    else if !PositionSafe(r.policy, partial, |partial| - 1) then None
    else if edge.None? then None
    else
      var onward := r.score(r.routePrefix + s.intermediates + [candidate], r.rightAnchor);
      var remaining: real := if onward.Some? then onward.value else 0.0;
      var sum := s.sum + edge.value;
      var worst := MaxReal(s.worst, edge.value);
      Some(PathState(s.intermediates + [candidate], sum, worst, sum + remaining,
                     MaxReal(worst, remaining / (requested - layer) as real),
                     s.guidance + GuidanceOf(r, candidate)))
  }

  function Variants(r: Request, requested: nat, layer: nat, s: PathState, pool: seq<nat>): (v: seq<PathState>)
    requires layer < requested
    ensures |v| <= |pool|
  {
    if pool == [] then []
    else
      var rest := Variants(r, requested, layer, s, pool[1..]);
      if pool[0] in s.intermediates then rest
      else match Extend(r, requested, layer, s, pool[0])
        case None => rest
        case Some(next) => [next] + rest
  }

  function Expand(r: Request, requested: nat, layer: nat, frontier: seq<PathState>, pool: seq<nat>): (v: seq<PathState>)
    requires layer < requested
  {
    if frontier == [] then []
    else
      Take(SortBy(Variants(r, requested, layer, frontier[0], pool), PartialKey), r.config.candidateLimit)
      + Expand(r, requested, layer, frontier[1..], pool)
  }

  function PathOf(s: PathState): seq<nat> {
    s.intermediates
  }

  function NextLayer(r: Request, requested: nat, layer: nat, frontier: seq<PathState>, pool: seq<nat>): seq<PathState>
    requires layer < requested
  {
    Take(DedupBy(SortBy(Expand(r, requested, layer, frontier, pool), PartialKey), PathOf), r.config.beamWidth)
  }

  /** Whatever the beam drops, it keeps nothing that comes later in order. */
  lemma LayerKeepsLeast(r: Request, requested: nat, layer: nat, frontier: seq<PathState>, kept: PathState,
                        dropped: PathState)
    requires layer < requested && kept in NextLayer(r, requested, layer, frontier, Available(r))
    requires dropped !in NextLayer(r, requested, layer, frontier, Available(r))
    requires dropped in DedupBy(SortBy(Expand(r, requested, layer, frontier, Available(r)), PartialKey), PathOf)
    ensures KeyLe(PartialKey(kept), PartialKey(dropped))
    ensures |NextLayer(r, requested, layer, frontier, Available(r))| == r.config.beamWidth
  {
    hide SortBy, DedupBy, Expand, KeyLe, Take, AvailableTracks;
    var expanded := Expand(r, requested, layer, frontier, Available(r));
    SortBySorts(expanded, PartialKey);
    DedupBySorted(SortBy(expanded, PartialKey), PathOf, PartialKey);
    TakeKeepsLeast(DedupBy(SortBy(expanded, PartialKey), PathOf), r.config.beamWidth, PartialKey, kept, dropped);
  }

  /** The candidate limit keeps nothing that comes after a variant it drops. */
  lemma VariantsKeepLeast(r: Request, requested: nat, layer: nat, s: PathState, kept: PathState, dropped: PathState)
    requires layer < requested
    requires var sorted := SortBy(Variants(r, requested, layer, s, Available(r)), PartialKey);
             kept in Take(sorted, r.config.candidateLimit) && dropped !in Take(sorted, r.config.candidateLimit)
    requires dropped in Variants(r, requested, layer, s, Available(r))
    ensures KeyLe(PartialKey(kept), PartialKey(dropped))
  {
    hide SortBy, Variants, KeyLe, Take, AvailableTracks;
    var variants := Variants(r, requested, layer, s, Available(r));
    SortBySorts(variants, PartialKey);
    SortByMembers(variants, PartialKey);
    TakeKeepsLeast(SortBy(variants, PartialKey), r.config.candidateLimit, PartialKey, kept, dropped);
  }

  // ----- what a layer holds -----

  ghost predicate Represents(r: Request, s: PathState) {
    && WalkCost(r.score, r.routePrefix, s.intermediates) == Some(Cost(s.sum, s.worst))
    && s.guidance == GuidanceSum(r, s.intermediates)
  }

  ghost predicate GoodPartial(r: Request, requested: nat, layer: nat, s: PathState)
    requires layer <= requested
  {
    |s.intermediates| == layer && Partial(r, requested, s.intermediates) && Represents(r, s)
  }

  ghost predicate Layered(r: Request, requested: nat, layer: nat, states: seq<PathState>)
    requires layer <= requested
  {
    forall s | s in states :: GoodPartial(r, requested, layer, s)
  }

  ghost predicate HasPath(states: seq<PathState>, xs: seq<nat>) {
    exists s :: s in states && s.intermediates == xs
  }

  /** Every partial path of this length is represented. */
  ghost predicate Exhaustive(r: Request, requested: nat, layer: nat, states: seq<PathState>)
    requires layer <= requested
  {
    forall xs: seq<nat> | |xs| == layer && Partial(r, requested, xs) :: HasPath(states, xs)
  }

  /** One more track keeps a partial path partial exactly when the step tests pass. */
  lemma PartialStep(r: Request, requested: nat, xs: seq<nat>, x: nat)
    requires |xs| < requested
    ensures var partial := Visited(r, xs) + [x];
            Partial(r, requested, xs + [x]) <==>
            && Partial(r, requested, xs) && x !in xs && x in Available(r)
            && !KeysTooClose(r.policy, x, r.rightAnchor, requested - |xs|)
            && PositionSafe(r.policy, partial, |partial| - 1)
            && r.score(r.routePrefix + xs, x).Some?
  {
    hide KeysTooClose, PositionSafe, WalkCost, AvailableTracks, StepSafe;
    DistinctStep(xs, x);
    FromPoolStep(xs, Available(r), x);
    WalkCostStep(r.score, r.routePrefix, xs, x);
    StepSafeStep(r, requested, xs, x);
  }

  lemma DistinctStep(xs: seq<nat>, x: nat)
    ensures Distinct(xs + [x]) <==> Distinct(xs) && x !in xs
  {
    var ys := xs + [x];
    if Distinct(ys) {
      forall i, j | 0 <= i < j < |xs| ensures xs[i] != xs[j] {
        assert ys[i] != ys[j];
      }
      forall i | 0 <= i < |xs| ensures xs[i] != x {
        assert ys[i] != ys[|xs|];
      }
    }
  }

  lemma FromPoolStep(xs: seq<nat>, pool: seq<nat>, x: nat)
    ensures FromPool(xs + [x], pool) <==> FromPool(xs, pool) && x in pool
  {
    var ys := xs + [x];
    if FromPool(ys, pool) {
      forall i | 0 <= i < |xs| ensures xs[i] in pool {
        assert ys[i] in pool;
      }
      assert ys[|xs|] in pool;
    }
  }

  lemma SafeFromStep(p: Policy, route: seq<nat>, x: nat, from: nat)
    requires from <= |route|
    ensures SafeFrom(p, route + [x], from) <==>
            SafeFrom(p, route, from) && PositionSafe(p, route + [x], |route|)
  {
    hide TooClose, PositionSafe;
    var grown := route + [x];
    PositionSafePairs(p, grown, |route|);
    if SafeFrom(p, grown, from) {
      forall i, j | 0 <= i < j < |route| && from <= j ensures !TooClose(p, route[i], route[j], j - i) {
        assert !TooClose(p, grown[i], grown[j], j - i);
      }
    }
  }

  lemma StepSafeStep(r: Request, requested: nat, xs: seq<nat>, x: nat)
    requires |xs| < requested
    ensures var partial := Visited(r, xs) + [x];
            StepSafe(r, requested, xs + [x]) <==>
            && StepSafe(r, requested, xs)
            && !KeysTooClose(r.policy, x, r.rightAnchor, requested - |xs|)
            && PositionSafe(r.policy, partial, |partial| - 1)
  {
    hide KeysTooClose, PositionSafe, SafeFrom;
    var ys := xs + [x];
    assert Visited(r, ys) == Visited(r, xs) + [x];
    SafeFromStep(r.policy, Visited(r, xs), x, |RepeatPrefix(r)|);
    if StepSafe(r, requested, ys) {
      forall i | 0 <= i < |xs| ensures !KeysTooClose(r.policy, xs[i], r.rightAnchor, requested - i) {
        assert ys[i] == xs[i];
      }
      assert ys[|xs|] == x;
    }
  }

  lemma ExtendStep(r: Request, requested: nat, layer: nat, s: PathState, candidate: nat)
    requires layer < requested && GoodPartial(r, requested, layer, s)
    requires candidate in Available(r) && candidate !in s.intermediates
    ensures Extend(r, requested, layer, s, candidate).Some? <==>
            Partial(r, requested, s.intermediates + [candidate])
    ensures Extend(r, requested, layer, s, candidate).Some? ==>
              var next := Extend(r, requested, layer, s, candidate).value;
              next.intermediates == s.intermediates + [candidate] &&
              GoodPartial(r, requested, layer + 1, next)
  {
    hide KeysTooClose, PositionSafe, Partial, WalkCost, GuidanceSum, GuidanceOf, AvailableTracks;
    PartialStep(r, requested, s.intermediates, candidate);
    WalkCostStep(r.score, r.routePrefix, s.intermediates, candidate);
    GuidanceSumStep(r, s.intermediates, candidate);
  }

  lemma {:induction false} VariantsSound(r: Request, requested: nat, layer: nat, s: PathState, pool: seq<nat>,
                                         next: PathState)
    requires layer < requested && GoodPartial(r, requested, layer, s)
    requires forall t | t in pool :: t in Available(r)
    requires next in Variants(r, requested, layer, s, pool)
    ensures GoodPartial(r, requested, layer + 1, next)
  {
    hide Extend, GoodPartial, AvailableTracks;
    var rest := Variants(r, requested, layer, s, pool[1..]);
    if next in rest {
      VariantsSound(r, requested, layer, s, pool[1..], next);
    } else {
      assert pool[0] !in s.intermediates && Extend(r, requested, layer, s, pool[0]) == Some(next);
      assert pool[0] in pool;
      ExtendStep(r, requested, layer, s, pool[0]);
    }
  }

  lemma {:induction false} VariantsComplete(r: Request, requested: nat, layer: nat, s: PathState, pool: seq<nat>,
                                            x: nat)
    requires layer < requested && x in pool && x !in s.intermediates
    requires Extend(r, requested, layer, s, x).Some?
    ensures Extend(r, requested, layer, s, x).value in Variants(r, requested, layer, s, pool)
  {
    hide Extend;
    if pool[0] != x {
      VariantsComplete(r, requested, layer, s, pool[1..], x);
    }
  }

  lemma {:induction false} ExpandSound(r: Request, requested: nat, layer: nat, frontier: seq<PathState>,
                                       pool: seq<nat>, next: PathState)
    requires layer < requested && Layered(r, requested, layer, frontier)
    requires forall t | t in pool :: t in Available(r)
    requires next in Expand(r, requested, layer, frontier, pool)
    ensures GoodPartial(r, requested, layer + 1, next)
  {
    hide Variants, GoodPartial, AvailableTracks, SortBy;
    var variants := Variants(r, requested, layer, frontier[0], pool);
    SortByMembers(variants, PartialKey);
    if next in Expand(r, requested, layer, frontier[1..], pool) {
      ExpandSound(r, requested, layer, frontier[1..], pool, next);
    } else {
      assert next in SortBy(variants, PartialKey);
      VariantsSound(r, requested, layer, frontier[0], pool, next);
    }
  }

  lemma {:induction false} ExpandComplete(r: Request, requested: nat, layer: nat, frontier: seq<PathState>,
                                          pool: seq<nat>, s: PathState, next: PathState)
    requires layer < requested && s in frontier
    requires |Variants(r, requested, layer, s, pool)| <= r.config.candidateLimit
    requires next in Variants(r, requested, layer, s, pool)
    ensures next in Expand(r, requested, layer, frontier, pool)
  {
    hide Variants, SortBy;
    if s == frontier[0] {
      SortByMembers(Variants(r, requested, layer, s, pool), PartialKey);
    } else {
      ExpandComplete(r, requested, layer, frontier[1..], pool, s, next);
    }
  }

  lemma {:induction false} ExpandSize(r: Request, requested: nat, layer: nat, frontier: seq<PathState>, pool: seq<nat>)
    requires layer < requested
    ensures |Expand(r, requested, layer, frontier, pool)| <= |frontier| * |pool|
  {
    hide Variants, SortBy;
    if frontier != [] {
      ExpandSize(r, requested, layer, frontier[1..], pool);
      assert |frontier| * |pool| == |frontier[1..]| * |pool| + |pool|;
    }
  }

  lemma LayerSize(r: Request, requested: nat, layer: nat, frontier: seq<PathState>, pool: seq<nat>)
    requires layer < requested && |frontier| <= Power(|pool|, layer)
    ensures |Expand(r, requested, layer, frontier, pool)| <= Power(|pool|, layer + 1)
    ensures |NextLayer(r, requested, layer, frontier, pool)| <= Power(|pool|, layer + 1)
  {
    hide Expand, SortBy, DedupBy;
    ExpandSize(r, requested, layer, frontier, pool);
    assert |frontier| * |pool| <= Power(|pool|, layer) * |pool|;
  }

  lemma LayerSound(r: Request, requested: nat, layer: nat, frontier: seq<PathState>)
    requires layer < requested && Layered(r, requested, layer, frontier)
    ensures Layered(r, requested, layer + 1, NextLayer(r, requested, layer, frontier, Available(r)))
  {
    hide Expand, GoodPartial, SortBy, DedupBy, AvailableTracks;
    var pool := Available(r);
    var expanded := Expand(r, requested, layer, frontier, pool);
    SortByMembers(expanded, PartialKey);
    DedupByKeeps(SortBy(expanded, PartialKey), PathOf, []);
    forall next | next in NextLayer(r, requested, layer, frontier, pool)
      ensures GoodPartial(r, requested, layer + 1, next)
    {
      ExpandSound(r, requested, layer, frontier, pool, next);
    }
  }

  /** No limit cuts a search whose candidate limit covers the pool and whose
      beam covers every sequence of candidates. */
  ghost predicate NonBinding(r: Request) {
    r.config.candidateLimit >= |Available(r)| &&
    r.config.beamWidth >= Power(|Available(r)|, StructuralBound(r))
  }

  function StructuralBound(r: Request): nat {
    Min(r.config.maxIntermediates, |Available(r)|)
  }

  /** Neither limit dropped anything at this layer. */
  ghost predicate LayerUncut(r: Request, requested: nat, layer: nat, frontier: seq<PathState>)
    requires layer < requested
  {
    && (forall s | s in frontier :: |Variants(r, requested, layer, s, Available(r))| <= r.config.candidateLimit)
    && |DedupBy(SortBy(Expand(r, requested, layer, frontier, Available(r)), PartialKey), PathOf)| <= r.config.beamWidth
  }

  lemma NonBindingLayer(r: Request, requested: nat, layer: nat, frontier: seq<PathState>)
    requires NonBinding(r) && layer < requested <= StructuralBound(r)
    requires |frontier| <= Power(|Available(r)|, layer)
    ensures LayerUncut(r, requested, layer, frontier)
  {
    hide Variants, Expand, SortBy, DedupBy, AvailableTracks;
    LayerSize(r, requested, layer, frontier, Available(r));
    PowerGrows(|Available(r)|, layer + 1, StructuralBound(r));
  }

  lemma LayerFindsPath(r: Request, requested: nat, layer: nat, frontier: seq<PathState>, xs: seq<nat>)
    requires layer < requested && Layered(r, requested, layer, frontier)
    requires Exhaustive(r, requested, layer, frontier)
    requires LayerUncut(r, requested, layer, frontier)
    requires |xs| == layer + 1 && Partial(r, requested, xs)
    ensures HasPath(Expand(r, requested, layer, frontier, Available(r)), xs)
  {
    hide Extend, Partial, Variants, Expand, AvailableTracks, Represents, SortBy, DedupBy;
    var ys, x := xs[..layer], xs[layer];
    assert xs == ys + [x];
    PartialStep(r, requested, ys, x);
    var s :| s in frontier && s.intermediates == ys;
    assert GoodPartial(r, requested, layer, s);
    ExtendStep(r, requested, layer, s, x);
    var next := Extend(r, requested, layer, s, x).value;
    VariantsComplete(r, requested, layer, s, Available(r), x);
    ExpandComplete(r, requested, layer, frontier, Available(r), s, next);
  }

  /** An uncut layer still represents every partial path. */
  lemma LayerExhaustive(r: Request, requested: nat, layer: nat, frontier: seq<PathState>)
    requires layer < requested && Layered(r, requested, layer, frontier)
    requires Exhaustive(r, requested, layer, frontier) && LayerUncut(r, requested, layer, frontier)
    ensures Exhaustive(r, requested, layer + 1, NextLayer(r, requested, layer, frontier, Available(r)))
  {
    hide Expand, GoodPartial, Partial, SortBy, DedupBy, AvailableTracks, Variants;
    var expanded := Expand(r, requested, layer, frontier, Available(r));
    var sorted := SortBy(expanded, PartialKey);
    SortByMembers(expanded, PartialKey);
    forall xs: seq<nat> | |xs| == layer + 1 && Partial(r, requested, xs)
      ensures HasPath(NextLayer(r, requested, layer, frontier, Available(r)), xs)
    {
      LayerFindsPath(r, requested, layer, frontier, xs);
      var s :| s in expanded && s.intermediates == xs;
      assert s in sorted;
      assert HasBy(sorted, PathOf, xs);
      DedupByKeeps(sorted, PathOf, xs);
    }
  }

  lemma StartIsLayered(r: Request, requested: nat, start: PathState)
    requires start.intermediates == [] && start.sum == 0.0 && start.worst == 0.0 && start.guidance == 0.0
    ensures Layered(r, requested, 0, [start]) && Exhaustive(r, requested, 0, [start])
  {
    assert Visited(r, []) == RepeatPrefix(r);
    forall xs: seq<nat> | |xs| == 0 && Partial(r, requested, xs) ensures HasPath([start], xs) {
      assert start in [start];
    }
  }

  // ----- what the limits prefer -----

  /** The walk so far with the leg straight on to the anchor: its sum, and the
      larger of its worst leg and that leg spread over the edges still to come. */
  ghost function Outlook(r: Request, requested: nat, xs: seq<nat>): Cost
    requires |xs| <= requested
  {
    var walked, onward := WalkCost(r.score, r.routePrefix, xs), r.score(r.routePrefix + xs, r.rightAnchor);
    var cost: Cost := if walked.Some? then walked.value else Cost(0.0, 0.0);
    var rest: real := if onward.Some? then onward.value else 0.0;
    var share := rest / (requested - |xs| + 1) as real;
    Cost(cost.sum + rest, if cost.worst < share then share else cost.worst)
  }

  ghost predicate PathPreferred(r: Request, requested: nat, xs: seq<nat>, ys: seq<nat>)
    requires |xs| <= requested && |ys| <= requested
  {
    Preferred(Outlook(r, requested, xs), GuidanceSum(r, xs), xs, Outlook(r, requested, ys), GuidanceSum(r, ys), ys)
  }

  /** The order of partial states is read off their walks. */
  ghost predicate Ranked(r: Request, requested: nat, s: PathState) {
    && |s.intermediates| <= requested
    && PartialKey(s) == Key(0, Outlook(r, requested, s.intermediates).worst,
                            Outlook(r, requested, s.intermediates).sum, GuidanceSum(r, s.intermediates),
                            s.intermediates)
  }

  lemma RankedPrefers(r: Request, requested: nat, a: PathState, b: PathState)
    requires Ranked(r, requested, a) && Ranked(r, requested, b) && KeyLe(PartialKey(a), PartialKey(b))
    ensures PathPreferred(r, requested, a.intermediates, b.intermediates)
  {
    hide Outlook, GuidanceSum, KeyLe;
    KeyLeMeaning(PartialKey(a), PartialKey(b));
  }

  lemma ExtendRanked(r: Request, requested: nat, layer: nat, s: PathState, candidate: nat)
    requires layer < requested && GoodPartial(r, requested, layer, s)
    requires Extend(r, requested, layer, s, candidate).Some?
    ensures Ranked(r, requested, Extend(r, requested, layer, s, candidate).value)
  {
    hide KeysTooClose, PositionSafe, Partial, WalkCost, GuidanceSum, GuidanceOf;
    WalkCostStep(r.score, r.routePrefix, s.intermediates, candidate);
    GuidanceSumStep(r, s.intermediates, candidate);
    assert r.routePrefix + (s.intermediates + [candidate]) == r.routePrefix + s.intermediates + [candidate];
  }

  lemma {:induction false} VariantsRanked(r: Request, requested: nat, layer: nat, s: PathState, pool: seq<nat>)
    requires layer < requested && GoodPartial(r, requested, layer, s)
    ensures forall next | next in Variants(r, requested, layer, s, pool) :: Ranked(r, requested, next)
  {
    hide Extend, GoodPartial, Ranked;
    if pool != [] {
      VariantsRanked(r, requested, layer, s, pool[1..]);
      if pool[0] !in s.intermediates && Extend(r, requested, layer, s, pool[0]).Some? {
        ExtendRanked(r, requested, layer, s, pool[0]);
      }
    }
  }

  lemma {:induction false} ExpandRanked(r: Request, requested: nat, layer: nat, frontier: seq<PathState>,
                                        pool: seq<nat>)
    requires layer < requested && Layered(r, requested, layer, frontier)
    ensures forall next | next in Expand(r, requested, layer, frontier, pool) :: Ranked(r, requested, next)
  {
    hide Variants, GoodPartial, Ranked, SortBy;
    if frontier != [] {
      var variants := Variants(r, requested, layer, frontier[0], pool);
      VariantsRanked(r, requested, layer, frontier[0], pool);
      SortByMembers(variants, PartialKey);
      ExpandRanked(r, requested, layer, frontier[1..], pool);
    }
  }

  /** The beam is full when it drops a path, and everything it keeps is preferred
      to what it drops. */
  lemma BeamPrefers(r: Request, requested: nat, layer: nat, frontier: seq<PathState>, kept: seq<nat>,
                    dropped: seq<nat>)
    requires layer < requested && Layered(r, requested, layer, frontier)
    requires HasPath(NextLayer(r, requested, layer, frontier, Available(r)), kept)
    requires HasPath(Expand(r, requested, layer, frontier, Available(r)), dropped)
    requires !HasPath(NextLayer(r, requested, layer, frontier, Available(r)), dropped)
    ensures |kept| == |dropped| == layer + 1 && PathPreferred(r, requested, kept, dropped)
    ensures |NextLayer(r, requested, layer, frontier, Available(r))| == r.config.beamWidth
  {
    hide SortBy, DedupBy, Expand, KeyLe, NextLayer, AvailableTracks, GoodPartial, Ranked, PathPreferred;
    var pool := Available(r);
    var expanded := Expand(r, requested, layer, frontier, pool);
    var a :| a in NextLayer(r, requested, layer, frontier, pool) && a.intermediates == kept;
    var x :| x in expanded && x.intermediates == dropped;
    var b := DroppedState(r, requested, layer, frontier, x);
    KeptIsExpanded(r, requested, layer, frontier, a);
    ExpandRanked(r, requested, layer, frontier, pool);
    ExpandSound(r, requested, layer, frontier, pool, a);
    ExpandSound(r, requested, layer, frontier, pool, b);
    GoodPartialLength(r, requested, layer + 1, a);
    GoodPartialLength(r, requested, layer + 1, b);
    LayerKeepsLeast(r, requested, layer, frontier, a, b);
    RankedPrefers(r, requested, a, b);
  }

  lemma KeptIsExpanded(r: Request, requested: nat, layer: nat, frontier: seq<PathState>, a: PathState)
    requires layer < requested && a in NextLayer(r, requested, layer, frontier, Available(r))
    ensures a in Expand(r, requested, layer, frontier, Available(r))
  {
    hide SortBy, DedupBy, Expand, AvailableTracks;
    var expanded := Expand(r, requested, layer, frontier, Available(r));
    SortByMembers(expanded, PartialKey);
    DedupByKeeps(SortBy(expanded, PartialKey), PathOf, []);
  }

  lemma DroppedState(r: Request, requested: nat, layer: nat, frontier: seq<PathState>, x: PathState)
    returns (b: PathState)
    requires layer < requested && x in Expand(r, requested, layer, frontier, Available(r))
    requires !HasPath(NextLayer(r, requested, layer, frontier, Available(r)), x.intermediates)
    ensures b.intermediates == x.intermediates && b in Expand(r, requested, layer, frontier, Available(r))
    ensures b !in NextLayer(r, requested, layer, frontier, Available(r))
    ensures b in DedupBy(SortBy(Expand(r, requested, layer, frontier, Available(r)), PartialKey), PathOf)
  {
    hide SortBy, DedupBy, Expand, NextLayer, AvailableTracks;
    var expanded := Expand(r, requested, layer, frontier, Available(r));
    var sorted := SortBy(expanded, PartialKey);
    SortByMembers(expanded, PartialKey);
    assert x in sorted && PathOf(x) == x.intermediates;
    DedupByKeeps(sorted, PathOf, x.intermediates);
    assert HasBy(sorted, PathOf, x.intermediates);
    b :| b in DedupBy(sorted, PathOf) && PathOf(b) == x.intermediates;
  }

  /** Of the legal steps from one path the candidate limit drops one only when
      it is full, and everything it keeps is preferred to what it drops. */
  lemma CandidateLimitPrefers(r: Request, requested: nat, layer: nat, s: PathState, kept: nat, dropped: nat)
    requires layer < requested && GoodPartial(r, requested, layer, s)
    requires dropped in Available(r) && Partial(r, requested, s.intermediates + [dropped])
    requires var taken := Take(SortBy(Variants(r, requested, layer, s, Available(r)), PartialKey),
                               r.config.candidateLimit);
             HasPath(taken, s.intermediates + [kept]) && !HasPath(taken, s.intermediates + [dropped])
    ensures |s.intermediates| == layer
    ensures PathPreferred(r, requested, s.intermediates + [kept], s.intermediates + [dropped])
    ensures |Take(SortBy(Variants(r, requested, layer, s, Available(r)), PartialKey), r.config.candidateLimit)| ==
            r.config.candidateLimit
  {
    hide SortBy, KeyLe, AvailableTracks, Extend, Represents, Ranked, PathPreferred, Take, Variants, Partial;
    var variants := Variants(r, requested, layer, s, Available(r));
    var sorted := SortBy(variants, PartialKey);
    var a :| a in Take(sorted, r.config.candidateLimit) && a.intermediates == s.intermediates + [kept];
    PartialStep(r, requested, s.intermediates, dropped);
    ExtendStep(r, requested, layer, s, dropped);
    var b := Extend(r, requested, layer, s, dropped).value;
    VariantsComplete(r, requested, layer, s, Available(r), dropped);
    SortBySorts(variants, PartialKey);
    SortByMembers(variants, PartialKey);
    TakeIsPart(sorted, r.config.candidateLimit, a);
    TakeKeepsLeast(sorted, r.config.candidateLimit, PartialKey, a, b);
    VariantsRanked(r, requested, layer, s, Available(r));
    RankedPrefers(r, requested, a, b);
  }

  // ----- no path twice -----

  lemma {:induction false} VariantsDistinct(r: Request, requested: nat, layer: nat, s: PathState, pool: seq<nat>)
    requires layer < requested && StrictlyAscending(pool)
    ensures var v := Variants(r, requested, layer, s, pool);
            && DistinctBy(v, PathOf)
            && forall i | 0 <= i < |v| ::
                 |v[i].intermediates| == |s.intermediates| + 1 &&
                 v[i].intermediates[..|s.intermediates|] == s.intermediates &&
                 v[i].intermediates[|s.intermediates|] in pool
  {
    hide KeysTooClose, PositionSafe;
    if pool != [] {
      VariantsDistinct(r, requested, layer, s, pool[1..]);
      var rest := Variants(r, requested, layer, s, pool[1..]);
      var v, n := Variants(r, requested, layer, s, pool), |s.intermediates|;
      assert forall t :: t in pool[1..] ==> t in pool && t > pool[0];
      if pool[0] !in s.intermediates && Extend(r, requested, layer, s, pool[0]).Some? {
        var next := Extend(r, requested, layer, s, pool[0]).value;
        assert next.intermediates == s.intermediates + [pool[0]];
        forall i | 0 <= i < |rest| ensures PathOf(next) != PathOf(rest[i]) {
          assert rest[i].intermediates[n] > pool[0] == next.intermediates[n];
        }
        assert v == [next] + rest;
      }
    }
  }

  /** The kept variants of one state: distinct, and all behind its own path. */
  lemma KeptVariants(r: Request, requested: nat, layer: nat, s: PathState, pool: seq<nat>)
    requires layer < requested && StrictlyAscending(pool)
    ensures var kept := Take(SortBy(Variants(r, requested, layer, s, pool), PartialKey), r.config.candidateLimit);
            && DistinctBy(kept, PathOf)
            && forall i | 0 <= i < |kept| ::
                 |kept[i].intermediates| == |s.intermediates| + 1 &&
                 kept[i].intermediates[..|s.intermediates|] == s.intermediates
  {
    hide Variants, SortBy;
    var v := Variants(r, requested, layer, s, pool);
    VariantsDistinct(r, requested, layer, s, pool);
    SortByMembers(v, PartialKey);
    DistinctByPermutes(v, SortBy(v, PartialKey), PathOf);
    forall x | x in SortBy(v, PartialKey)
      ensures |x.intermediates| == |s.intermediates| + 1 && x.intermediates[..|s.intermediates|] == s.intermediates
    {
      assert x in v;
      var i :| 0 <= i < |v| && v[i] == x;
    }
  }

  lemma {:induction false} ExpandDistinct(r: Request, requested: nat, layer: nat, frontier: seq<PathState>,
                                          pool: seq<nat>)
    requires layer < requested && StrictlyAscending(pool) && DistinctBy(frontier, PathOf)
    requires forall i | 0 <= i < |frontier| :: |frontier[i].intermediates| == layer
    ensures var v := Expand(r, requested, layer, frontier, pool);
            && DistinctBy(v, PathOf)
            && forall i | 0 <= i < |v| ::
                 |v[i].intermediates| == layer + 1 &&
                 exists k :: 0 <= k < |frontier| && v[i].intermediates[..layer] == frontier[k].intermediates
  {
    hide Variants, SortBy;
    if frontier != [] {
      var kept := Take(SortBy(Variants(r, requested, layer, frontier[0], pool), PartialKey), r.config.candidateLimit);
      var rest := Expand(r, requested, layer, frontier[1..], pool);
      KeptVariants(r, requested, layer, frontier[0], pool);
      ExpandDistinct(r, requested, layer, frontier[1..], pool);
      assert Expand(r, requested, layer, frontier, pool) == kept + rest;
      forall i | 0 <= i < |rest|
        ensures exists k :: 0 < k < |frontier| && rest[i].intermediates[..layer] == frontier[k].intermediates
      {
        var k :| 0 <= k < |frontier[1..]| && rest[i].intermediates[..layer] == frontier[1..][k].intermediates;
        assert frontier[k + 1] == frontier[1..][k];
      }
      forall i, j | 0 <= i < |kept| && 0 <= j < |rest| ensures PathOf(kept[i]) != PathOf(rest[j]) {
        var k :| 0 < k < |frontier| && rest[j].intermediates[..layer] == frontier[k].intermediates;
        assert PathOf(frontier[0]) != PathOf(frontier[k]);
      }
    }
  }

  /** Distinct paths stay distinct over a layer, so deduplication is idle. */
  lemma LayerDistinct(r: Request, requested: nat, layer: nat, frontier: seq<PathState>)
    requires layer < requested && Layered(r, requested, layer, frontier) && DistinctBy(frontier, PathOf)
    ensures DistinctBy(NextLayer(r, requested, layer, frontier, Available(r)), PathOf)
  {
    hide Expand, SortBy, GoodPartial, AvailableTracks, DedupBy;
    forall i | 0 <= i < |frontier| ensures |frontier[i].intermediates| == layer {
      GoodPartialLength(r, requested, layer, frontier[i]);
    }
    var expanded := Expand(r, requested, layer, frontier, Available(r));
    ExpandDistinct(r, requested, layer, frontier, Available(r));
    SortByMembers(expanded, PartialKey);
    DistinctByPermutes(expanded, SortBy(expanded, PartialKey), PathOf);
    DedupByIdle(SortBy(expanded, PartialKey), PathOf);
  }

  lemma GoodPartialLength(r: Request, requested: nat, layer: nat, s: PathState)
    requires layer <= requested && GoodPartial(r, requested, layer, s)
    ensures |s.intermediates| == layer
  {
  }

  // ----- complete paths -----

  /** The closing tests of one finished path, and its closing leg. */
  function Finish(r: Request, ignored: nat, s: PathState): Option<PathState> {
    var leg := r.score(r.routePrefix + s.intermediates, r.rightAnchor);
    if !GeneratedSafe(r, s.intermediates) then None
    else if !RightAnchorSafe(r.policy, FullRoute(r, s.intermediates), ignored) then None
    else if leg.None? then None
    else
      var sum, worst := s.sum + leg.value, MaxReal(s.worst, leg.value);
      Some(PathState(s.intermediates, sum, worst, sum, worst, s.guidance))
  }

  function FinishAll(r: Request, ignored: nat, frontier: seq<PathState>): (v: seq<PathState>)
    ensures |v| <= |frontier|
  {
    if frontier == [] then []
    else
      var rest := FinishAll(r, ignored, frontier[1..]);
      match Finish(r, ignored, frontier[0])
      case None => rest
      case Some(done) => [done] + rest
  }

  /** The comparison key of a path, read off its legs when none is missing. */
  ghost function PathKey(r: Request, xs: seq<nat>): Key {
    var legs := WalkCost(r.score, r.routePrefix, xs + [r.rightAnchor]);
    var cost := if legs.Some? then legs.value else Cost(0.0, 0.0);
    Key(0, cost.worst, cost.sum, GuidanceSum(r, xs), xs)
  }

  ghost predicate GoodComplete(r: Request, ignored: nat, requested: nat, s: PathState) {
    && |s.intermediates| == requested
    && Feasible(r, ignored, s.intermediates)
    && CompleteKey(s) == PathKey(r, s.intermediates)
  }

  ghost predicate AllComplete(r: Request, ignored: nat, requested: nat, states: seq<PathState>) {
    forall s | s in states :: GoodComplete(r, ignored, requested, s)
  }

  /** Every prefix of a complete path passes the step tests. */
  lemma FeasibleIsPartial(r: Request, ignored: nat, xs: seq<nat>)
    requires Feasible(r, ignored, xs)
    ensures Partial(r, |xs|, xs)
  {
    hide KeysTooClose, PositionSafe, WalkCost, RightAnchorSafe, AvailableTracks;
    SafetyByPairs(r, ignored, xs);
    WalkCostPrefix(r.score, r.routePrefix, xs + [r.rightAnchor], |xs|);
    assert (xs + [r.rightAnchor])[..|xs|] == xs;
    forall i | 0 <= i < |xs| ensures !KeysTooClose(r.policy, xs[i], r.rightAnchor, |xs| - i) {
      assert !TooClose(r.policy, xs[i], r.rightAnchor, |xs| - i);
    }
  }

  lemma FinishIsFeasible(r: Request, ignored: nat, requested: nat, s: PathState)
    requires GoodPartial(r, requested, requested, s)
    ensures Finish(r, ignored, s).Some? <==> Feasible(r, ignored, s.intermediates)
    ensures Finish(r, ignored, s).Some? ==>
              Finish(r, ignored, s).value.intermediates == s.intermediates &&
              GoodComplete(r, ignored, requested, Finish(r, ignored, s).value)
  {
    hide GeneratedSafe, RightAnchorSafe, StepSafe, WalkCost, AvailableTracks, GuidanceSum;
    WalkCostStep(r.score, r.routePrefix, s.intermediates, r.rightAnchor);
  }

  lemma {:induction false} FinishAllSound(r: Request, ignored: nat, requested: nat, frontier: seq<PathState>)
    requires Layered(r, requested, requested, frontier)
    ensures AllComplete(r, ignored, requested, FinishAll(r, ignored, frontier))
  {
    hide Finish, GoodPartial, GoodComplete;
    if frontier != [] {
      FinishIsFeasible(r, ignored, requested, frontier[0]);
      FinishAllSound(r, ignored, requested, frontier[1..]);
    }
  }

  lemma {:induction false} FinishAllDistinct(r: Request, ignored: nat, frontier: seq<PathState>)
    requires DistinctBy(frontier, PathOf)
    ensures var v := FinishAll(r, ignored, frontier);
            && DistinctBy(v, PathOf)
            && forall i | 0 <= i < |v| :: exists k :: 0 <= k < |frontier| && PathOf(v[i]) == PathOf(frontier[k])
  {
    hide GeneratedSafe, RightAnchorSafe;
    if frontier != [] {
      FinishAllDistinct(r, ignored, frontier[1..]);
      var rest := FinishAll(r, ignored, frontier[1..]);
      forall i | 0 <= i < |rest|
        ensures exists k :: 0 < k < |frontier| && PathOf(rest[i]) == PathOf(frontier[k])
      {
        var k :| 0 <= k < |frontier[1..]| && PathOf(rest[i]) == PathOf(frontier[1..][k]);
        assert frontier[k + 1] == frontier[1..][k];
      }
      if Finish(r, ignored, frontier[0]).Some? {
        var done := Finish(r, ignored, frontier[0]).value;
        assert PathOf(done) == PathOf(frontier[0]);
        assert FinishAll(r, ignored, frontier) == [done] + rest;
      }
    }
  }

  lemma {:induction false} FinishAllComplete(r: Request, ignored: nat, requested: nat, frontier: seq<PathState>,
                                             xs: seq<nat>)
    requires Layered(r, requested, requested, frontier)
    requires HasPath(frontier, xs) && Feasible(r, ignored, xs)
    ensures HasPath(FinishAll(r, ignored, frontier), xs)
  {
    hide Finish, GoodPartial, Feasible;
    var s :| s in frontier && s.intermediates == xs;
    if s == frontier[0] {
      FinishIsFeasible(r, ignored, requested, s);
      assert Finish(r, ignored, s).value in FinishAll(r, ignored, frontier);
    } else {
      assert s in frontier[1..];
      FinishAllComplete(r, ignored, requested, frontier[1..], xs);
      var c :| c in FinishAll(r, ignored, frontier[1..]) && c.intermediates == xs;
      assert c in FinishAll(r, ignored, frontier);
    }
  }

  // ----- choice among complete paths -----

  function WorstLimit(worst: real): real {
    worst + MaxReal(worst * 0.02, 0.000000001)
  }

  function SumLimit(sum: real): real {
    sum + MaxReal(sum * 0.05, 0.000000001)
  }

  /** Length of the leading run within the worst-leg limit. */
  function WorstBand(costs: seq<Cost>, limit: real): (n: nat)
    ensures n <= |costs|
    ensures forall i | 0 <= i < n :: costs[i].worst <= limit
    ensures n > 0 <==> costs != [] && costs[0].worst <= limit
  {
    if costs == [] || costs[0].worst > limit then 0 else 1 + WorstBand(costs[1..], limit)
  }

  function CountWithinSum(costs: seq<Cost>, limit: real): (n: nat)
    ensures n <= |costs|
    ensures costs != [] && costs[0].sum <= limit ==> n > 0
  {
    if costs == [] then 0
    else (if costs[0].sum <= limit then 1 else 0) + CountWithinSum(costs[1..], limit)
  }

  /** How many of the leading results count as good as the best one: inside
      the worst-leg run, those that also pass the sum test. */
  function QualityCount(costs: seq<Cost>): (n: nat)
    requires costs != []
    ensures 1 <= n <= |costs|
    ensures forall i | 0 <= i < n :: costs[i].worst <= WorstLimit(costs[0].worst)
  {
    var band := WorstBand(costs, WorstLimit(costs[0].worst));
    CountWithinSum(costs[..band], SumLimit(costs[0].sum))
  }

  /** No more than two per cent worse, or as good as equal. */
  lemma WorstLimitMeaning(best: real, worst: real)
    ensures worst <= WorstLimit(best) <==> worst <= 1.02 * best || worst <= best + 0.000000001
  {
  }

  /** No more than five per cent longer, or as good as equal. */
  lemma SumLimitMeaning(best: real, sum: real)
    ensures sum <= SumLimit(best) <==> sum <= 1.05 * best || sum <= best + 0.000000001
  {
  }

  lemma {:induction false} CountFrom(costs: seq<Cost>, limit: real, k: nat)
    requires k <= |costs|
    ensures CountWithinSum(costs[k..], limit) == |set i | k <= i < |costs| && costs[i].sum <= limit|
    decreases |costs| - k
  {
    var here := set i | k <= i < |costs| && costs[i].sum <= limit;
    if k < |costs| {
      CountFrom(costs, limit, k + 1);
      var later := set i | k + 1 <= i < |costs| && costs[i].sum <= limit;
      assert costs[k..][1..] == costs[k + 1..];
      assert here == if costs[k].sum <= limit then later + {k} else later;
    } else {
      assert here == {};
    }
  }

  /** The leading run of results as good as the best one by their worst leg. */
  ghost predicate LeadingRun(costs: seq<Cost>, run: nat)
    requires costs != []
  {
    && run <= |costs|
    && (forall i | 0 <= i < run ::
          costs[i].worst <= 1.02 * costs[0].worst || costs[i].worst <= costs[0].worst + 0.000000001)
    && (run < |costs| ==>
          costs[run].worst > 1.02 * costs[0].worst && costs[run].worst > costs[0].worst + 0.000000001)
  }

  lemma {:induction false} WorstBandStops(costs: seq<Cost>, limit: real)
    ensures WorstBand(costs, limit) < |costs| ==> costs[WorstBand(costs, limit)].worst > limit
  {
    if costs != [] && costs[0].worst <= limit {
      WorstBandStops(costs[1..], limit);
    }
  }

  /** The count is the number of results of that run whose sum is as good too. */
  lemma QualityCountMeaning(costs: seq<Cost>) returns (run: nat)
    requires costs != []
    ensures LeadingRun(costs, run)
    ensures QualityCount(costs) ==
            |set i | 0 <= i < run && (costs[i].sum <= 1.05 * costs[0].sum ||
                                      costs[i].sum <= costs[0].sum + 0.000000001)|
  {
    hide WorstLimit, SumLimit;
    run := WorstBand(costs, WorstLimit(costs[0].worst));
    WorstBandStops(costs, WorstLimit(costs[0].worst));
    forall i | 0 <= i < |costs|
      ensures costs[i].worst <= WorstLimit(costs[0].worst) <==>
              costs[i].worst <= 1.02 * costs[0].worst || costs[i].worst <= costs[0].worst + 0.000000001
    {
      WorstLimitMeaning(costs[0].worst, costs[i].worst);
    }
    var limit := SumLimit(costs[0].sum);
    CountFrom(costs[..run], limit, 0);
    assert costs[..run][0..] == costs[..run];
    forall i | 0 <= i < run
      ensures costs[i].sum <= limit <==>
              costs[i].sum <= 1.05 * costs[0].sum || costs[i].sum <= costs[0].sum + 0.000000001
    {
      SumLimitMeaning(costs[0].sum, costs[i].sum);
    }
    assert (set i | 0 <= i < |costs[..run]| && costs[..run][i].sum <= limit) ==
           (set i | 0 <= i < run && (costs[i].sum <= 1.05 * costs[0].sum ||
                                     costs[i].sum <= costs[0].sum + 0.000000001));
  }

  function CostsOf<T>(results: seq<T>, cost: T -> Cost): (costs: seq<Cost>)
    ensures |costs| == |results|
    ensures forall i | 0 <= i < |results| :: costs[i] == cost(results[i])
  {
    seq(|results|, i requires 0 <= i < |results| => cost(results[i]))
  }

  function PathLegs(s: PathState): Cost {
    Cost(s.sum, s.worst)
  }

  function VariedPoolLength(accepted: nat, percent: nat): (n: nat)
    requires percent <= 100
    ensures accepted > 0 ==> 1 <= n <= accepted
    ensures accepted == 0 ==> n == 0
    ensures percent == 0 ==> n == Min(accepted, 1)
  {
    if accepted == 0 || percent == 0 then Min(accepted, 1)
    else 1 + Share(Min(accepted, 32) - 1, percent)
  }

  /** One result, and of up to thirty-one others the requested percentage. */
  lemma VariedPoolMeaning(accepted: nat, percent: nat)
    requires accepted > 0 && percent <= 100
    ensures var n, others := VariedPoolLength(accepted, percent), (if accepted < 32 then accepted else 32) - 1;
            && n >= 1 && 100 * (n - 1) <= others * percent < 100 * n
            && (percent == 100 ==> n == 1 + others)
    ensures forall more | percent <= more <= 100 ::
              VariedPoolLength(accepted, percent) <= VariedPoolLength(accepted, more)
  {
    var others := Min(accepted, 32) - 1;
    ShareIsFloor(others, percent);
    ShareGrows(others, percent, percent);
    forall more | percent <= more <= 100
      ensures VariedPoolLength(accepted, percent) <= VariedPoolLength(accepted, more)
    {
      ShareGrows(others, percent, more);
    }
  }

  /** Variation key first, then the order of complete paths. */
  function ByVariation(r: Request): PathState -> Key {
    s => CompleteKey(s).(rank := r.variationKey(s.intermediates))
  }

  /** The alternatives kept for one intermediate count, from all complete paths in order. */
  function Choose(r: Request, complete: seq<PathState>): seq<PathState>
    requires r.config.variationPercent <= 100
  {
    if complete == [] then []
    else
      var varied := VariedPoolLength(QualityCount(CostsOf(complete, PathLegs)), r.config.variationPercent);
      var pool := complete[..Min(Max(varied, r.config.alternativesPerCount), |complete|)];
      var ordered := if r.config.variationPercent > 0 then SortBy(pool, ByVariation(r)) else pool;
      Take(ordered, r.config.alternativesPerCount)
  }

  lemma ChooseMembers(r: Request, complete: seq<PathState>)
    requires r.config.variationPercent <= 100 && r.config.alternativesPerCount > 0
    ensures |Choose(r, complete)| <= Min(r.config.alternativesPerCount, |complete|)
    ensures complete != [] ==> Choose(r, complete) != []
    ensures forall s :: s in Choose(r, complete) ==> s in complete
    ensures |complete| <= r.config.alternativesPerCount ==>
              forall s :: s in complete ==> s in Choose(r, complete)
  {
    hide SortBy, QualityCount, VariedPoolLength;
    if complete != [] {
      var varied := VariedPoolLength(QualityCount(CostsOf(complete, PathLegs)), r.config.variationPercent);
      var pool := complete[..Min(Max(varied, r.config.alternativesPerCount), |complete|)];
      SortByMembers(pool, ByVariation(r));
      assert forall s :: s in Choose(r, complete) ==> s in pool;
    }
  }

  lemma ChooseDistinct(r: Request, complete: seq<PathState>)
    requires r.config.variationPercent <= 100 && DistinctBy(complete, PathOf)
    ensures DistinctBy(Choose(r, complete), PathOf)
  {
    hide SortBy, QualityCount, VariedPoolLength;
    if complete != [] {
      var varied := VariedPoolLength(QualityCount(CostsOf(complete, PathLegs)), r.config.variationPercent);
      var pool := complete[..Min(Max(varied, r.config.alternativesPerCount), |complete|)];
      assert DistinctBy(pool, PathOf);
      SortByMembers(pool, ByVariation(r));
      DistinctByPermutes(pool, SortBy(pool, ByVariation(r)), PathOf);
    }
  }

  /** Without variation the first complete paths are kept, in order. */
  lemma ChooseWithoutVariation(r: Request, complete: seq<PathState>)
    requires r.config.variationPercent == 0 && r.config.alternativesPerCount > 0
    ensures Choose(r, complete) == Take(complete, r.config.alternativesPerCount)
  {
    hide QualityCount;
  }

  /** A single varied choice stays within the worst-leg limit of the best path. */
  lemma ChooseWithinBand(r: Request, complete: seq<PathState>)
    requires 0 < r.config.variationPercent <= 100 && r.config.alternativesPerCount == 1
    ensures forall s :: s in Choose(r, complete) ==> s.worst <= WorstLimit(complete[0].worst)
  {
    hide SortBy;
    if complete != [] {
      var varied := VariedPoolLength(QualityCount(CostsOf(complete, PathLegs)), r.config.variationPercent);
      var pool := complete[..Min(Max(varied, r.config.alternativesPerCount), |complete|)];
      SortByMembers(pool, ByVariation(r));
      forall s | s in Choose(r, complete) ensures s.worst <= WorstLimit(complete[0].worst) {
        assert s in pool;
        var i :| 0 <= i < |pool| && pool[i] == s;
        assert s == complete[i];
      }
    }
  }

  /** The complete paths that compete for one intermediate count. */
  ghost function Competing(r: Request, complete: seq<PathState>): nat
    requires r.config.variationPercent <= 100 && complete != []
  {
    var costs := seq(|complete|, i requires 0 <= i < |complete| => Cost(complete[i].sum, complete[i].worst));
    var varied, asked := VariedPoolLength(QualityCount(costs), r.config.variationPercent),
                         r.config.alternativesPerCount;
    var wanted := if varied < asked then asked else varied;
    if wanted < |complete| then wanted else |complete|
  }

  /** With variation the seeded key decides among the competing paths, and only
      then their order; as many are kept as were asked for. */
  lemma ChooseVaries(r: Request, complete: seq<PathState>, kept: PathState, dropped: PathState)
    requires 0 < r.config.variationPercent <= 100 && complete != [] && kept in Choose(r, complete)
    ensures kept in complete[..Competing(r, complete)]
    ensures dropped in complete[..Competing(r, complete)] && dropped !in Choose(r, complete) ==>
              && |Choose(r, complete)| == r.config.alternativesPerCount
              && var a, b := r.variationKey(kept.intermediates), r.variationKey(dropped.intermediates);
                 a < b || (a == b && KeyLe(CompleteKey(kept), CompleteKey(dropped)))
  {
    hide SortBy, QualityCount, VariedPoolLength, Take;
    assert CostsOf(complete, PathLegs) ==
           seq(|complete|, i requires 0 <= i < |complete| => Cost(complete[i].sum, complete[i].worst));
    var pool, key := complete[..Competing(r, complete)], ByVariation(r);
    SortByMembers(pool, key);
    SortBySorts(pool, key);
    assert Choose(r, complete) == Take(SortBy(pool, key), r.config.alternativesPerCount);
    TakeIsPart(SortBy(pool, key), r.config.alternativesPerCount, kept);
    if dropped in pool && dropped !in Choose(r, complete) {
      TakeKeepsLeast(SortBy(pool, key), r.config.alternativesPerCount, key, kept, dropped);
    }
  }

  /** What the kept paths say about one feasible path of their count. */
  ghost predicate Answers(r: Request, chosen: seq<PathState>, trimmed: bool, xs: seq<nat>) {
    && chosen != []
    && (r.config.variationPercent == 0 ==>
          (exists s :: s in chosen && KeyLe(CompleteKey(s), PathKey(r, xs))) &&
          (HasPath(chosen, xs) || forall s | s in chosen :: KeyLe(CompleteKey(s), PathKey(r, xs))))
    && (r.config.variationPercent > 0 && r.config.alternativesPerCount == 1 ==>
          forall s | s in chosen :: s.worst <= WorstLimit(PathKey(r, xs).worst))
    && (!trimmed ==> HasPath(chosen, xs))
  }

  lemma WorstLimitMonotone(a: real, b: real)
    requires a <= b
    ensures WorstLimit(a) <= WorstLimit(b)
  {
  }

  lemma ChooseAnswers(r: Request, ignored: nat, requested: nat, finished: seq<PathState>, xs: seq<nat>)
    requires r.config.variationPercent <= 100 && r.config.alternativesPerCount > 0
    requires AllComplete(r, ignored, requested, finished)
    requires |xs| == requested && Feasible(r, ignored, xs) && HasPath(finished, xs)
    ensures Answers(r, Choose(r, SortBy(finished, CompleteKey)), |finished| > r.config.alternativesPerCount, xs)
  {
    hide SortBy, KeyLe, Choose, WorstLimit, Feasible, AvailableTracks, PathKey, Power;
    var complete := SortBy(finished, CompleteKey);
    SortByMembers(finished, CompleteKey);
    SortBySorts(finished, CompleteKey);
    var mine :| mine in finished && mine.intermediates == xs;
    assert GoodComplete(r, ignored, requested, mine);
    assert mine in complete;
    var at :| 0 <= at < |complete| && complete[at] == mine;
    ChooseMembers(r, complete);
    if r.config.variationPercent == 0 {
      ChooseWithoutVariation(r, complete);
      FirstOnesAnswer(r, complete, at);
    } else if r.config.alternativesPerCount == 1 {
      BandAnswers(r, complete, at);
    }
  }

  lemma BandAnswers(r: Request, complete: seq<PathState>, at: nat)
    requires 0 < r.config.variationPercent <= 100 && r.config.alternativesPerCount == 1
    requires at < |complete| && SortedBy(complete, CompleteKey)
    ensures forall s | s in Choose(r, complete) :: s.worst <= WorstLimit(complete[at].worst)
  {
    hide KeyLe, Choose, WorstLimit;
    ChooseWithinBand(r, complete);
    assert KeyLe(CompleteKey(complete[0]), CompleteKey(complete[at]));
    KeyLeRank(CompleteKey(complete[0]), CompleteKey(complete[at]));
    WorstLimitMonotone(complete[0].worst, complete[at].worst);
  }

  lemma FirstOnesAnswer(r: Request, complete: seq<PathState>, at: nat)
    requires r.config.alternativesPerCount > 0 && at < |complete| && SortedBy(complete, CompleteKey)
    ensures var chosen := Take(complete, r.config.alternativesPerCount);
            && (exists s :: s in chosen && KeyLe(CompleteKey(s), CompleteKey(complete[at])))
            && (complete[at] in chosen || forall s | s in chosen :: KeyLe(CompleteKey(s), CompleteKey(complete[at])))
  {
    hide KeyLe;
    var chosen := Take(complete, r.config.alternativesPerCount);
    assert chosen[0] in chosen && KeyLe(CompleteKey(complete[0]), CompleteKey(complete[at]));
    if at < |chosen| {
      assert chosen[at] in chosen;
    } else {
      forall s | s in chosen ensures KeyLe(CompleteKey(s), CompleteKey(complete[at])) {
        var i :| 0 <= i < |chosen| && chosen[i] == s;
        assert KeyLe(CompleteKey(complete[i]), CompleteKey(complete[at]));
      }
    }
  }

  /** No intermediate count has two feasible paths. */
  ghost predicate OnePerCount(r: Request, ignored: nat) {
    forall xs, ys: seq<nat> | |xs| == |ys| && Feasible(r, ignored, xs) && Feasible(r, ignored, ys) :: xs == ys
  }

  lemma SamePath(r: Request, ignored: nat, requested: nat, a: PathState, b: PathState)
    requires OnePerCount(r, ignored) && GoodComplete(r, ignored, requested, a) && GoodComplete(r, ignored, requested, b)
    ensures PathOf(a) == PathOf(b)
  {
    hide Feasible, PathKey;
  }

  lemma OnePathFinishes(r: Request, ignored: nat, requested: nat, finished: seq<PathState>)
    requires OnePerCount(r, ignored) && AllComplete(r, ignored, requested, finished) && DistinctBy(finished, PathOf)
    ensures |finished| <= 1
  {
    hide OnePerCount, GoodComplete;
    if |finished| > 1 {
      SamePath(r, ignored, requested, finished[0], finished[1]);
    }
  }

  // ----- one intermediate count -----

  /** The states after `layer` steps towards `requested` intermediates. */
  function FrontierAt(r: Request, requested: nat, layer: nat): seq<PathState>
    requires layer <= requested
  {
    if layer == 0 then [StartState(r.score(r.routePrefix, r.rightAnchor), requested)]
    else NextLayer(r, requested, layer - 1, FrontierAt(r, requested, layer - 1), Available(r))
  }

  /** No candidate or beam limit drops a state on the way to this count. */
  ghost predicate CountUncut(r: Request, requested: nat) {
    UncutBefore(r, requested, requested)
  }

  ghost predicate UncutBefore(r: Request, requested: nat, layer: nat)
    requires layer <= requested
  {
    forall k | 0 <= k < layer :: LayerUncut(r, requested, k, FrontierAt(r, requested, k))
  }

  /** The complete paths of one count that the search finds. */
  function CountFinished(r: Request, ignored: nat, requested: nat): seq<PathState> {
    FinishAll(r, ignored, FrontierAt(r, requested, requested))
  }

  /** More complete paths were found than alternatives are kept. */
  predicate CountTrimmed(r: Request, ignored: nat, requested: nat) {
    |CountFinished(r, ignored, requested)| > r.config.alternativesPerCount
  }

  /** The alternatives kept for one count. */
  function CountPaths(r: Request, ignored: nat, requested: nat): seq<PathState>
    requires r.config.variationPercent <= 100
  {
    Choose(r, SortBy(CountFinished(r, ignored, requested), CompleteKey))
  }

  /** Whatever the limits, each layer holds distinct true partial paths. */
  lemma {:induction false} FrontierSound(r: Request, requested: nat, layer: nat)
    requires layer <= requested
    ensures Layered(r, requested, layer, FrontierAt(r, requested, layer))
    ensures DistinctBy(FrontierAt(r, requested, layer), PathOf)
    ensures |FrontierAt(r, requested, layer)| <= Power(|Available(r)|, layer)
  {
    hide NextLayer, Layered, AvailableTracks;
    var frontier := FrontierAt(r, requested, layer);
    if layer == 0 {
      StartIsLayered(r, requested, frontier[0]);
    } else {
      var before := FrontierAt(r, requested, layer - 1);
      FrontierSound(r, requested, layer - 1);
      LayerSize(r, requested, layer - 1, before, Available(r));
      LayerSound(r, requested, layer - 1, before);
      LayerDistinct(r, requested, layer - 1, before);
    }
  }

  lemma {:induction false} FrontierExhaustive(r: Request, requested: nat, layer: nat)
    requires layer <= requested && UncutBefore(r, requested, layer)
    ensures Exhaustive(r, requested, layer, FrontierAt(r, requested, layer))
  {
    hide NextLayer, Layered, Exhaustive, LayerUncut, AvailableTracks;
    if layer == 0 {
      StartIsLayered(r, requested, FrontierAt(r, requested, 0)[0]);
    } else {
      FrontierExhaustive(r, requested, layer - 1);
      FrontierSound(r, requested, layer - 1);
      LayerExhaustive(r, requested, layer - 1, FrontierAt(r, requested, layer - 1));
    }
  }

  lemma NonBindingCount(r: Request, requested: nat)
    requires NonBinding(r) && requested <= StructuralBound(r)
    ensures CountUncut(r, requested)
  {
    hide LayerUncut, NonBinding, FrontierAt, StructuralBound;
    forall k | 0 <= k < requested ensures LayerUncut(r, requested, k, FrontierAt(r, requested, k)) {
      FrontierSound(r, requested, k);
      NonBindingLayer(r, requested, k, FrontierAt(r, requested, k));
    }
  }

  /** A layer left empty stays empty and drops nothing more. */
  lemma {:induction false} EmptyStaysEmpty(r: Request, requested: nat, layer: nat, later: nat)
    requires layer <= later <= requested && FrontierAt(r, requested, layer) == []
    ensures FrontierAt(r, requested, later) == []
    ensures UncutBefore(r, requested, layer) <==> UncutBefore(r, requested, later)
  {
    hide AvailableTracks, LayerUncut, NextLayer;
    if layer < later {
      EmptyStaysEmpty(r, requested, layer, later - 1);
      EmptyLayer(r, requested, later - 1);
    }
  }

  lemma EmptyLayer(r: Request, requested: nat, layer: nat)
    requires layer < requested
    ensures LayerUncut(r, requested, layer, []) && NextLayer(r, requested, layer, [], Available(r)) == []
  {
  }

  lemma CountFinishedSound(r: Request, ignored: nat, requested: nat)
    ensures AllComplete(r, ignored, requested, CountFinished(r, ignored, requested))
    ensures DistinctBy(CountFinished(r, ignored, requested), PathOf)
    ensures |CountFinished(r, ignored, requested)| <= Power(|Available(r)|, requested)
    ensures r.config.alternativesPerCount >= Power(|Available(r)|, requested) ==> !CountTrimmed(r, ignored, requested)
    ensures r.config.alternativesPerCount > 0 && OnePerCount(r, ignored) ==> !CountTrimmed(r, ignored, requested)
  {
    hide FinishAll, AllComplete, Layered, OnePerCount, FrontierAt, Power;
    FrontierSound(r, requested, requested);
    var frontier := FrontierAt(r, requested, requested);
    FinishAllSound(r, ignored, requested, frontier);
    FinishAllDistinct(r, ignored, frontier);
    if OnePerCount(r, ignored) {
      OnePathFinishes(r, ignored, requested, FinishAll(r, ignored, frontier));
    }
  }

  /** The kept alternatives of a count are distinct feasible paths with their true costs. */
  lemma CountPathsSound(r: Request, ignored: nat, requested: nat)
    requires r.config.variationPercent <= 100 && r.config.alternativesPerCount > 0
    ensures var chosen := CountPaths(r, ignored, requested);
            && AllComplete(r, ignored, requested, chosen) && DistinctBy(chosen, PathOf)
            && |chosen| <= r.config.alternativesPerCount && |chosen| <= Power(|Available(r)|, requested)
  {
    hide CountFinished, Choose, SortBy, AllComplete, Power;
    var finished := CountFinished(r, ignored, requested);
    CountFinishedSound(r, ignored, requested);
    SortByMembers(finished, CompleteKey);
    DistinctByPermutes(finished, SortBy(finished, CompleteKey), PathOf);
    ChooseDistinct(r, SortBy(finished, CompleteKey));
    ChooseSound(r, ignored, requested, finished);
  }

  /** Uncut, they answer every feasible path of the count. */
  lemma CountPathsAnswer(r: Request, ignored: nat, requested: nat, xs: seq<nat>)
    requires r.config.variationPercent <= 100 && r.config.alternativesPerCount > 0 && CountUncut(r, requested)
    requires |xs| == requested && Feasible(r, ignored, xs)
    ensures Answers(r, CountPaths(r, ignored, requested), CountTrimmed(r, ignored, requested), xs)
  {
    hide Choose, SortBy, AllComplete, Feasible, Answers, FinishAll, Exhaustive, Layered, FrontierAt;
    var frontier := FrontierAt(r, requested, requested);
    FrontierSound(r, requested, requested);
    FrontierExhaustive(r, requested, requested);
    CountFinishedSound(r, ignored, requested);
    ExhaustiveHasPath(r, ignored, requested, frontier, xs);
    FinishAllComplete(r, ignored, requested, frontier, xs);
    ChooseAnswers(r, ignored, requested, CountFinished(r, ignored, requested), xs);
  }

  /** The least feasible path of its count. */
  ghost predicate LeastFeasible(r: Request, ignored: nat, xs: seq<nat>) {
    && Feasible(r, ignored, xs)
    && forall ys: seq<nat> | |ys| == |xs| && Feasible(r, ignored, ys) :: KeyLe(PathKey(r, xs), PathKey(r, ys))
  }

  lemma LeastIsUnique(r: Request, ignored: nat, xs: seq<nat>, ys: seq<nat>)
    requires LeastFeasible(r, ignored, xs) && LeastFeasible(r, ignored, ys) && |xs| == |ys|
    ensures xs == ys
  {
    hide Feasible, KeyLe;
    KeyLeTotal(PathKey(r, xs), PathKey(r, ys));
  }

  /** Without variation, a single alternative of an uncut count is its least
      feasible path; there is none only if no path is feasible. */
  lemma CountKeepsLeast(r: Request, ignored: nat, requested: nat)
    requires r.config.variationPercent == 0 && r.config.alternativesPerCount == 1 && CountUncut(r, requested)
    ensures forall s | s in CountPaths(r, ignored, requested) :: LeastFeasible(r, ignored, s.intermediates)
    ensures (exists xs: seq<nat> :: |xs| == requested && Feasible(r, ignored, xs)) ==>
              CountPaths(r, ignored, requested) != []
  {
    hide CountPaths, Feasible, KeyLe, PathKey, CountUncut;
    var chosen := CountPaths(r, ignored, requested);
    CountPathsSound(r, ignored, requested);
    forall s | s in chosen ensures LeastFeasible(r, ignored, s.intermediates) {
      assert GoodComplete(r, ignored, requested, s);
      forall ys: seq<nat> | |ys| == |s.intermediates| && Feasible(r, ignored, ys)
        ensures KeyLe(PathKey(r, s.intermediates), PathKey(r, ys))
      {
        CountPathsAnswer(r, ignored, requested, ys);
        assert chosen == [s];
      }
    }
    if xs: seq<nat> :| |xs| == requested && Feasible(r, ignored, xs) {
      CountPathsAnswer(r, ignored, requested, xs);
    }
  }

  /** All layers of one intermediate count.  `cut` says that a candidate or
      beam limit dropped a state, `trimmed` that complete paths outnumber the
      alternatives kept. */
  method SearchCount(r: Request, ignored: nat, requested: nat, direct: Option<Distance>)
    returns (chosen: seq<PathState>, ghost cut: bool, ghost trimmed: bool)
    requires Validate(r).None? && 0 < requested <= StructuralBound(r)
    requires direct == r.score(r.routePrefix, r.rightAnchor)
    ensures chosen == CountPaths(r, ignored, requested)
    ensures cut <==> !CountUncut(r, requested)
    ensures trimmed <==> CountTrimmed(r, ignored, requested)
    ensures AllComplete(r, ignored, requested, chosen)
    ensures |chosen| <= r.config.alternativesPerCount && |chosen| <= Power(|Available(r)|, requested)
    ensures DistinctBy(chosen, PathOf)
    ensures NonBinding(r) ==> !cut
    ensures r.config.alternativesPerCount >= Power(|Available(r)|, requested) ==> !trimmed
    ensures OnePerCount(r, ignored) ==> !trimmed
    ensures !cut ==>
              forall xs: seq<nat> | |xs| == requested && Feasible(r, ignored, xs) :: Answers(r, chosen, trimmed, xs)
  {
    hide LayerUncut, NonBinding, OnePerCount, AvailableTracks, Validate, Feasible, Answers, NextLayer, Choose, SortBy,
      Power, FinishAll, AllComplete;
    assert 0 < r.config.alternativesPerCount && r.config.variationPercent <= 100 by {
      ValidLimits(r);
    }
    CountFinishedSound(r, ignored, requested);
    CountPathsSound(r, ignored, requested);
    if NonBinding(r) {
      NonBindingCount(r, requested);
    }
    if CountUncut(r, requested) {
      forall xs: seq<nat> | |xs| == requested && Feasible(r, ignored, xs)
        ensures Answers(r, CountPaths(r, ignored, requested), CountTrimmed(r, ignored, requested), xs)
      {
        CountPathsAnswer(r, ignored, requested, xs);
      }
    }
    var pool := Available(r);
    var frontier := [StartState(direct, requested)];
    cut, trimmed := false, CountTrimmed(r, ignored, requested);
    var layer := 0;
    while layer < requested
      invariant 0 <= layer <= requested
      invariant frontier == FrontierAt(r, requested, layer)
      invariant cut <==> !UncutBefore(r, requested, layer)
    {
      cut := cut || !LayerUncut(r, requested, layer, frontier);
      frontier := NextLayer(r, requested, layer, frontier, pool);
      layer := layer + 1;
      if frontier == [] {
        break;
      }
    }
    if layer < requested {
      EmptyStaysEmpty(r, requested, layer, requested);
    }
    chosen := Choose(r, SortBy(FinishAll(r, ignored, frontier), CompleteKey));
  }

  lemma ValidLimits(r: Request)
    requires Validate(r).None?
    ensures 0 < r.config.alternativesPerCount && r.config.variationPercent <= 100
    ensures 0 < r.config.candidateLimit && 0 < r.config.beamWidth
    ensures r.routePrefix != [] && r.routePrefix[|r.routePrefix| - 1] == r.leftAnchor
    ensures r.leftAnchor != r.rightAnchor
  {
  }

  /** A layer left empty leaves no feasible path of that count. */
  lemma EmptyFrontierStops(r: Request, ignored: nat, requested: nat, layer: nat)
    requires layer <= requested
    ensures AllComplete(r, ignored, requested, [])
    ensures Exhaustive(r, requested, layer, []) ==>
              forall xs: seq<nat> | |xs| == requested :: !Feasible(r, ignored, xs)
  {
    hide Partial, Feasible;
    if Exhaustive(r, requested, layer, []) {
      forall xs: seq<nat> | |xs| == requested ensures !Feasible(r, ignored, xs) {
        if Feasible(r, ignored, xs) {
          FeasibleIsPartial(r, ignored, xs);
          PartialPrefix(r, requested, xs, layer);
          assert false;
        }
      }
    }
  }

  lemma {:induction false} PartialPrefix(r: Request, requested: nat, xs: seq<nat>, k: nat)
    requires k <= |xs| <= requested && Partial(r, requested, xs)
    ensures Partial(r, requested, xs[..k])
  {
    hide Partial, AvailableTracks, KeysTooClose, PositionSafe;
    if k < |xs| {
      var ys := xs[..|xs| - 1];
      assert xs == ys + [xs[|xs| - 1]];
      PartialStep(r, requested, ys, xs[|xs| - 1]);
      PartialPrefix(r, requested, ys, k);
      assert ys[..k] == xs[..k];
    } else {
      assert xs[..k] == xs;
    }
  }

  lemma ExhaustiveHasPath(r: Request, ignored: nat, requested: nat, frontier: seq<PathState>, xs: seq<nat>)
    requires Exhaustive(r, requested, requested, frontier)
    requires |xs| == requested && Feasible(r, ignored, xs)
    ensures HasPath(frontier, xs)
  {
    hide Partial, Feasible;
    FeasibleIsPartial(r, ignored, xs);
  }

  lemma ChooseSound(r: Request, ignored: nat, requested: nat, finished: seq<PathState>)
    requires r.config.variationPercent <= 100 && r.config.alternativesPerCount > 0
    requires AllComplete(r, ignored, requested, finished)
    ensures var chosen := Choose(r, SortBy(finished, CompleteKey));
            AllComplete(r, ignored, requested, chosen) &&
            |chosen| <= r.config.alternativesPerCount && |chosen| <= |finished|
  {
    hide GoodComplete, SortBy, Choose;
    SortByMembers(finished, CompleteKey);
    ChooseMembers(r, SortBy(finished, CompleteKey));
  }

  // ----- every intermediate count -----

  datatype PathOption = PathOption(
    intermediates: seq<nat>, route: seq<nat>, sum: real, worst: real, guidance: real)

  datatype SearchResult = Rejected(error: PathError) | Found(options: seq<PathOption>)

  function ToOption(r: Request, s: PathState): PathOption {
    PathOption(s.intermediates, r.routePrefix + s.intermediates + [r.rightAnchor], s.sum, s.worst, s.guidance)
  }

  function ToOptions(r: Request, states: seq<PathState>): (v: seq<PathOption>)
    ensures |v| == |states|
  {
    seq(|states|, i requires 0 <= i < |states| => ToOption(r, states[i]))
  }

  function OptionKey(o: PathOption): Key {
    Key(0, o.worst, o.sum, o.guidance, o.intermediates)
  }

  /** The largest shortfall over the tested context, by position. */
  function MinimumFrom(p: Policy, context: seq<nat>, rightAnchor: nat, ignored: nat, position: nat): nat
    requires position <= |context|
    decreases |context| - position
  {
    if position == |context| then 0
    else
      var rest := MinimumFrom(p, context, rightAnchor, ignored, position + 1);
      if position < ignored then rest
      else Max(Minus(SharedWindow(p, context[position], rightAnchor) + 1, |context| - position), rest)
  }

  function MinimumIntermediates(r: Request, ignored: nat): nat {
    MinimumFrom(r.policy, RepeatPrefix(r), r.rightAnchor, ignored, 0)
  }

  lemma {:induction false} MinimumFromIsExact(p: Policy, context: seq<nat>, rightAnchor: nat, ignored: nat,
                                              position: nat, n: nat)
    requires position <= |context|
    ensures MinimumFrom(p, context, rightAnchor, ignored, position) <= n <==>
            forall k | position <= k < |context| && ignored <= k ::
              !TooClose(p, context[k], rightAnchor, |context| - k + n)
    decreases |context| - position
  {
    hide TooClose, SharedWindow;
    if position < |context| {
      MinimumFromIsExact(p, context, rightAnchor, ignored, position + 1, n);
      SharedWindowDecides(p, context[position], rightAnchor, |context| - position + n);
    }
  }

  /** The computed minimum is exactly where the tested context clears the
      right anchor: starting the counts there skips no path. */
  lemma MinimumIntermediatesIsExact(r: Request, ignored: nat, n: nat)
    ensures MinimumIntermediates(r, ignored) <= n <==> ContextClear(r, ignored, n)
  {
    hide TooClose;
    MinimumFromIsExact(r.policy, RepeatPrefix(r), r.rightAnchor, ignored, 0, n);
  }

  /** The direct option is offered exactly when no intermediate is needed and
      the direct leg is finite. */
  lemma DirectOfferedExactly(r: Request, ignored: nat)
    ensures Feasible(r, ignored, []) <==>
            MinimumIntermediates(r, ignored) == 0 && r.score(r.routePrefix, r.rightAnchor).Some?
  {
    hide GeneratedSafe, RightAnchorSafe, SafeFrom, AvailableTracks, MinimumFrom, TooClose;
    WalkCostStep(r.score, r.routePrefix, [], r.rightAnchor);
    assert r.routePrefix + [] == r.routePrefix && [] + [r.rightAnchor] == [r.rightAnchor];
    SafetyByPairs(r, ignored, []);
    MinimumIntermediatesIsExact(r, ignored, 0);
    NothingGenerated(r);
  }

  lemma NothingGenerated(r: Request)
    ensures SafeFrom(r.policy, Visited(r, []), |RepeatPrefix(r)|)
  {
  }

  lemma FeasibleCount(r: Request, ignored: nat, xs: seq<nat>)
    requires Feasible(r, ignored, xs)
    ensures MinimumIntermediates(r, ignored) <= |xs| <= |Available(r)|
  {
    hide TooClose, GeneratedSafe, RightAnchorSafe, AvailableTracks;
    SafetyByPairs(r, ignored, xs);
    MinimumIntermediatesIsExact(r, ignored, |xs|);
    DistinctFits(xs, Available(r));
  }

  lemma {:induction false} DistinctFits(xs: seq<nat>, pool: seq<nat>)
    requires Distinct(xs) && FromPool(xs, pool)
    ensures |xs| <= |pool|
  {
    if xs != [] {
      var ys, x := xs[..|xs| - 1], xs[|xs| - 1];
      assert xs == ys + [x];
      DistinctStep(ys, x);
      assert x in pool;
      var k :| 0 <= k < |pool| && pool[k] == x;
      var rest := pool[..k] + pool[k + 1..];
      forall i | 0 <= i < |ys| ensures ys[i] in rest {
        assert ys[i] == xs[i] && ys[i] != x;
        var j :| 0 <= j < |pool| && pool[j] == ys[i];
        assert rest[if j < k then j else j - 1] == ys[i];
      }
      DistinctFits(ys, rest);
    }
  }

  ghost predicate GoodOption(r: Request, ignored: nat, o: PathOption) {
    && |o.intermediates| <= r.config.maxIntermediates && |o.intermediates| <= |Available(r)|
    && Feasible(r, ignored, o.intermediates)
    && OptionKey(o) == PathKey(r, o.intermediates)
    && o.route == r.routePrefix + o.intermediates + [r.rightAnchor]
  }

  ghost predicate HasOption(options: seq<PathOption>, xs: seq<nat>) {
    exists o :: o in options && o.intermediates == xs
  }

  /** What the returned options say about one feasible path: its count is
      answered; without variation by the least paths of that count; with
      variation, one alternative stays within the worst-leg limit. */
  ghost predicate OptionsAnswer(r: Request, options: seq<PathOption>, trimmed: bool, xs: seq<nat>) {
    && (exists o :: o in options && |o.intermediates| == |xs|)
    && (r.config.variationPercent == 0 ==>
          && (exists o :: o in options && |o.intermediates| == |xs| && KeyLe(OptionKey(o), PathKey(r, xs)))
          && (HasOption(options, xs) ||
              forall o | o in options && |o.intermediates| == |xs| :: KeyLe(OptionKey(o), PathKey(r, xs))))
    && (r.config.variationPercent > 0 && r.config.alternativesPerCount == 1 ==>
          forall o | o in options && |o.intermediates| == |xs| :: o.worst <= WorstLimit(PathKey(r, xs).worst))
    && (!trimmed ==> HasOption(options, xs))
  }

  lemma AnsweredFully(r: Request, options: seq<PathOption>, xs: seq<nat>)
    requires OptionsAnswer(r, options, false, xs)
    ensures HasOption(options, xs)
  {
    hide KeyLe, PathKey;
  }

  function Geometric(base: nat, k: nat): nat {
    if k == 0 then 1 else Geometric(base, k - 1) + Power(base, k)
  }

  lemma AnswersCarryOver(r: Request, options: seq<PathOption>, before: bool, chosen: seq<PathState>, trimmed: bool,
                         requested: nat, xs: seq<nat>)
    requires forall o | o in options :: |o.intermediates| < requested
    requires forall s | s in chosen :: |s.intermediates| == requested
    ensures |xs| == requested && Answers(r, chosen, trimmed, xs) ==>
              OptionsAnswer(r, options + ToOptions(r, chosen), before || trimmed, xs)
    ensures |xs| < requested && OptionsAnswer(r, options, before, xs) ==>
              OptionsAnswer(r, options + ToOptions(r, chosen), before || trimmed, xs)
  {
    hide KeyLe, Power, WorstLimit, AvailableTracks, PathKey;
    var added := ToOptions(r, chosen);
    ToOptionsMembers(r, chosen);
    if |xs| == requested && Answers(r, chosen, trimmed, xs) {
      NewCountAnswered(r, options, chosen, trimmed, requested, xs);
    }
    if |xs| < requested && OptionsAnswer(r, options, before, xs) {
      OldCountAnswered(r, options, before, added, requested, xs);
    }
  }

  lemma ToOptionsMembers(r: Request, states: seq<PathState>)
    ensures forall o :: o in ToOptions(r, states) ==> exists s :: s in states && o == ToOption(r, s)
    ensures forall s :: s in states ==> ToOption(r, s) in ToOptions(r, states)
  {
    var v := ToOptions(r, states);
    forall o | o in v ensures exists s :: s in states && o == ToOption(r, s) {
      var i :| 0 <= i < |v| && v[i] == o;
      assert states[i] in states;
    }
    forall s | s in states ensures ToOption(r, s) in v {
      var i :| 0 <= i < |states| && states[i] == s;
      assert v[i] == ToOption(r, s);
    }
  }

  lemma OldCountAnswered(r: Request, options: seq<PathOption>, trimmed: bool, added: seq<PathOption>, requested: nat,
                         xs: seq<nat>)
    requires forall o | o in added :: |o.intermediates| == requested
    requires |xs| < requested && OptionsAnswer(r, options, trimmed, xs)
    ensures OptionsAnswer(r, options + added, trimmed, xs)
  {
    hide KeyLe, Power, WorstLimit, AvailableTracks, PathKey;
    var all := options + added;
    assert forall o :: o in all <==> o in options || o in added;
  }

  lemma NewCountAnswered(r: Request, options: seq<PathOption>, chosen: seq<PathState>, trimmed: bool, requested: nat,
                         xs: seq<nat>)
    requires forall o | o in options :: |o.intermediates| < requested
    requires forall s | s in chosen :: |s.intermediates| == requested
    requires |xs| == requested && Answers(r, chosen, trimmed, xs)
    ensures OptionsAnswer(r, options + ToOptions(r, chosen), trimmed, xs)
  {
    hide KeyLe, Power, WorstLimit, AvailableTracks, PathKey, ToOptions;
    var added := ToOptions(r, chosen);
    ToOptionsMembers(r, chosen);
    var all := options + added;
    assert forall o :: o in all <==> o in options || o in added;
    assert chosen[0] in chosen;
    assert ToOption(r, chosen[0]) in all;
    if HasPath(chosen, xs) {
      var s :| s in chosen && s.intermediates == xs;
      assert ToOption(r, s) in all;
    }
    if r.config.variationPercent == 0 {
      var s :| s in chosen && KeyLe(CompleteKey(s), PathKey(r, xs));
      assert ToOption(r, s) in all && OptionKey(ToOption(r, s)) == CompleteKey(s);
    }
  }

  function DirectState(direct: Distance): PathState {
    PathState([], direct, direct, direct, direct, 0.0)
  }

  /** The direct option is offered exactly when the empty path is feasible. */
  lemma DirectIsEmptyPath(r: Request, ignored: nat)
    ensures var direct := r.score(r.routePrefix, r.rightAnchor);
            var route := RepeatPrefix(r) + [r.rightAnchor];
            (direct.Some? && RightAnchorSafe(r.policy, route, ignored) <==> Feasible(r, ignored, [])) &&
            (direct.Some? && RightAnchorSafe(r.policy, route, ignored) ==>
               GoodComplete(r, ignored, 0, DirectState(direct.value)))
  {
    hide RightAnchorSafe, AvailableTracks, GeneratedSafe, WalkCost;
    assert FullRoute(r, []) == RepeatPrefix(r) + [r.rightAnchor];
    OneLeg(r.score, r.routePrefix, r.rightAnchor);
    assert [] + [r.rightAnchor] == [r.rightAnchor];
    EmptyIsSafe(r);
  }

  lemma EmptyIsSafe(r: Request)
    ensures GeneratedSafe(r, [])
  {
  }

  lemma DirectAnswers(r: Request, ignored: nat, direct: Distance)
    requires Feasible(r, ignored, [])
    requires GoodComplete(r, ignored, 0, DirectState(direct))
    ensures Answers(r, [DirectState(direct)], false, [])
  {
    hide PathKey, Feasible, AvailableTracks;
    var s := DirectState(direct);
    assert s in [s];
    KeyLeTotal(CompleteKey(s), CompleteKey(s));
  }

  function IntermediatesOf(o: PathOption): seq<nat> {
    o.intermediates
  }

  lemma DistinctGrows(r: Request, ignored: nat, options: seq<PathOption>, chosen: seq<PathState>, requested: nat)
    requires DistinctBy(options, IntermediatesOf) && DistinctBy(chosen, PathOf)
    requires forall o | o in options :: |o.intermediates| < requested
    requires AllComplete(r, ignored, requested, chosen)
    ensures DistinctBy(options + ToOptions(r, chosen), IntermediatesOf)
  {
    hide Feasible, PathKey, AvailableTracks;
    var added := ToOptions(r, chosen);
    forall i | 0 <= i < |chosen| ensures |IntermediatesOf(added[i])| == requested {
      assert chosen[i] in chosen;
      assert GoodComplete(r, ignored, requested, chosen[i]);
    }
    forall i, j | 0 <= i < j < |added| ensures IntermediatesOf(added[i]) != IntermediatesOf(added[j]) {
      assert PathOf(chosen[i]) != PathOf(chosen[j]);
    }
    forall i, j | 0 <= i < |options| && 0 <= j < |added|
      ensures IntermediatesOf(options[i]) != IntermediatesOf(added[j]) {
      assert options[i] in options;
    }
  }

  ghost predicate AllGood(r: Request, ignored: nat, options: seq<PathOption>) {
    forall o | o in options :: GoodOption(r, ignored, o)
  }

  lemma AllGoodGrows(r: Request, ignored: nat, options: seq<PathOption>, chosen: seq<PathState>, requested: nat)
    requires AllGood(r, ignored, options)
    requires AllComplete(r, ignored, requested, chosen) && requested <= StructuralBound(r)
    ensures AllGood(r, ignored, options + ToOptions(r, chosen))
  {
    hide Feasible, PathKey, AvailableTracks, ToOptions;
    ToOptionsMembers(r, chosen);
    var all := options + ToOptions(r, chosen);
    forall o | o in all ensures GoodOption(r, ignored, o) {
      if o !in options {
        var s :| s in chosen && o == ToOption(r, s);
        assert GoodComplete(r, ignored, requested, s);
      }
    }
  }

  /** Answered so far: every feasible path with fewer than `next` intermediates. */
  ghost predicate AnsweredBelow(r: Request, ignored: nat, options: seq<PathOption>, trimmed: bool, next: nat) {
    forall xs: seq<nat> | |xs| < next && Feasible(r, ignored, xs) :: OptionsAnswer(r, options, trimmed, xs)
  }

  lemma AnsweredGrows(r: Request, ignored: nat, options: seq<PathOption>, before: bool, chosen: seq<PathState>,
                      trimmed: bool, requested: nat)
    requires AnsweredBelow(r, ignored, options, before, requested)
    requires forall o | o in options :: |o.intermediates| < requested
    requires AllComplete(r, ignored, requested, chosen)
    requires forall xs: seq<nat> | |xs| == requested && Feasible(r, ignored, xs) :: Answers(r, chosen, trimmed, xs)
    ensures AnsweredBelow(r, ignored, options + ToOptions(r, chosen), before || trimmed, requested + 1)
  {
    hide Feasible, PathKey, AvailableTracks, ToOptions, Answers, OptionsAnswer;
    forall s | s in chosen ensures |s.intermediates| == requested {
      assert GoodComplete(r, ignored, requested, s);
    }
    forall xs: seq<nat> | |xs| < requested + 1 && Feasible(r, ignored, xs)
      ensures OptionsAnswer(r, options + ToOptions(r, chosen), before || trimmed, xs)
    {
      AnswersCarryOver(r, options, before, chosen, trimmed, requested, xs);
    }
  }

  /** Counts below the computed minimum have no feasible path. */
  lemma AnsweredBelowMinimum(r: Request, ignored: nat, options: seq<PathOption>, next: nat)
    requires AnsweredBelow(r, ignored, options, false, 1)
    requires next <= Max(MinimumIntermediates(r, ignored), 1)
    ensures AnsweredBelow(r, ignored, options, false, next)
  {
    hide Feasible, OptionsAnswer, MinimumFrom;
    forall xs: seq<nat> | |xs| < next && Feasible(r, ignored, xs) ensures OptionsAnswer(r, options, false, xs) {
      FeasibleCount(r, ignored, xs);
    }
  }

  lemma GeometricGrows(base: nat, low: nat, high: nat)
    requires low <= high
    ensures Geometric(base, low) <= Geometric(base, high)
  {
  }

  /** The direct option, when nothing forbids it. */
  function DirectOptions(r: Request, ignored: nat): seq<PathOption> {
    var direct := r.score(r.routePrefix, r.rightAnchor);
    if direct.Some? && RightAnchorSafe(r.policy, RepeatPrefix(r) + [r.rightAnchor], ignored) then
      ToOptions(r, [DirectState(direct.value)])
    else []
  }

  /** The first intermediate count that is searched. */
  function FirstCount(r: Request, ignored: nat): (n: nat)
    ensures n > 0
  {
    Max(MinimumIntermediates(r, ignored), 1)
  }

  /** The options with fewer than `next` intermediates. */
  function OptionsBelow(r: Request, ignored: nat, next: nat): seq<PathOption>
    requires r.config.variationPercent <= 100
  {
    if next <= FirstCount(r, ignored) then DirectOptions(r, ignored)
    else OptionsBelow(r, ignored, next - 1) + ToOptions(r, CountPaths(r, ignored, next - 1))
  }

  ghost predicate UncutBelow(r: Request, ignored: nat, next: nat) {
    forall n | FirstCount(r, ignored) <= n < next :: CountUncut(r, n)
  }

  ghost predicate TrimmedBelow(r: Request, ignored: nat, next: nat) {
    exists n :: FirstCount(r, ignored) <= n < next && CountTrimmed(r, ignored, n)
  }

  /** What the search returns. */
  function SearchOf(r: Request, ignored: nat): SearchResult {
    match Validate(r)
    case Some(error) => Rejected(error)
    case None =>
      assert r.config.variationPercent <= 100 by { ValidLimits(r); }
      Found(OptionsBelow(r, ignored, StructuralBound(r) + 1))
  }

  /** No candidate or beam limit drops a state of any searched count. */
  ghost predicate SearchUncut(r: Request, ignored: nat) {
    Validate(r).None? ==> UncutBelow(r, ignored, StructuralBound(r) + 1)
  }

  /** Some searched count finds more complete paths than it may keep. */
  ghost predicate SearchTrimmed(r: Request, ignored: nat) {
    Validate(r).None? && TrimmedBelow(r, ignored, StructuralBound(r) + 1)
  }

  lemma DirectSound(r: Request, ignored: nat)
    ensures var options := DirectOptions(r, ignored);
            && AllGood(r, ignored, options) && |options| <= 1
            && (forall o | o in options :: |o.intermediates| == 0)
            && AnsweredBelow(r, ignored, options, false, 1)
  {
    hide Feasible, PathKey, AvailableTracks, Answers, OptionsAnswer, RightAnchorSafe;
    var direct := r.score(r.routePrefix, r.rightAnchor);
    DirectIsEmptyPath(r, ignored);
    if Feasible(r, ignored, []) {
      DirectAnswers(r, ignored, direct.value);
    }
    DirectDone(r, ignored, DirectOptions(r, ignored), direct);
  }

  /** Whatever the limits, every option is good, and none is there twice. */
  lemma {:induction false} OptionsSound(r: Request, ignored: nat, next: nat)
    requires r.config.variationPercent <= 100 && r.config.alternativesPerCount > 0
    requires next <= StructuralBound(r) + 1
    ensures var options := OptionsBelow(r, ignored, next);
            && AllGood(r, ignored, options) && DistinctBy(options, IntermediatesOf)
            && (forall o | o in options :: next > 0 ==> |o.intermediates| < next)
            && |options| <= Geometric(|Available(r)|, Minus(next, 1))
  {
    hide AllGood, AllComplete, GoodComplete, CountPaths, ToOptions, FirstCount, DirectOptions, StructuralBound, Power;
    DirectSound(r, ignored);
    GeometricGrows(|Available(r)|, 0, Minus(next, 1));
    if next > FirstCount(r, ignored) {
      var chosen := CountPaths(r, ignored, next - 1);
      OptionsSound(r, ignored, next - 1);
      CountPathsSound(r, ignored, next - 1);
      var before := OptionsBelow(r, ignored, next - 1);
      AllGoodGrows(r, ignored, before, chosen, next - 1);
      CountsGrow(r, ignored, before, chosen, next - 1);
      DistinctGrows(r, ignored, before, chosen, next - 1);
    }
  }

  /** Uncut, every feasible path of the counts done so far is answered. */
  lemma {:induction false} OptionsAnswerPaths(r: Request, ignored: nat, next: nat)
    requires r.config.variationPercent <= 100 && r.config.alternativesPerCount > 0
    requires next <= StructuralBound(r) + 1 && UncutBelow(r, ignored, next)
    ensures AnsweredBelow(r, ignored, OptionsBelow(r, ignored, next), TrimmedBelow(r, ignored, next), next)
  {
    hide AnsweredBelow, AllGood, AllComplete, GoodComplete, CountPaths, ToOptions, DirectOptions, Feasible, Answers,
      CountTrimmed, CountUncut, MinimumFrom;
    if next <= FirstCount(r, ignored) {
      DirectSound(r, ignored);
      AnsweredBelowMinimum(r, ignored, DirectOptions(r, ignored), next);
      assert !TrimmedBelow(r, ignored, next);
    } else {
      var last := next - 1;
      var chosen, before := CountPaths(r, ignored, last), OptionsBelow(r, ignored, last);
      OptionsSound(r, ignored, last);
      OptionsAnswerPaths(r, ignored, last);
      CountPathsSound(r, ignored, last);
      forall xs: seq<nat> | |xs| == last && Feasible(r, ignored, xs)
        ensures Answers(r, chosen, CountTrimmed(r, ignored, last), xs)
      {
        CountPathsAnswer(r, ignored, last, xs);
      }
      AnsweredGrows(r, ignored, before, TrimmedBelow(r, ignored, last), chosen, CountTrimmed(r, ignored, last), last);
      TrimmedStep(r, ignored, last);
    }
  }

  lemma TrimmedStep(r: Request, ignored: nat, last: nat)
    requires FirstCount(r, ignored) <= last
    ensures TrimmedBelow(r, ignored, last + 1) <==>
            TrimmedBelow(r, ignored, last) || CountTrimmed(r, ignored, last)
    ensures UncutBelow(r, ignored, last + 1) <==> UncutBelow(r, ignored, last) && CountUncut(r, last)
  {
    hide CountTrimmed, CountUncut, FirstCount;
  }

  /** What the result is worth, whatever the limits and when none is felt. */
  lemma SearchAnswers(r: Request, ignored: nat)
    requires Validate(r).None?
    ensures var options := SearchOf(r, ignored).options;
            && AllGood(r, ignored, options) && DistinctBy(options, IntermediatesOf)
            && |options| <= Geometric(|Available(r)|, StructuralBound(r))
    ensures SearchUncut(r, ignored) ==>
              forall xs: seq<nat> | |xs| <= r.config.maxIntermediates && Feasible(r, ignored, xs) ::
                OptionsAnswer(r, SearchOf(r, ignored).options, SearchTrimmed(r, ignored), xs)
  {
    hide Validate, AnsweredBelow, AllGood, OptionsBelow, StructuralBound, Feasible, OptionsAnswer, TrimmedBelow,
      UncutBelow;
    ValidLimits(r);
    var next := StructuralBound(r) + 1;
    OptionsSound(r, ignored, next);
    if SearchUncut(r, ignored) {
      OptionsAnswerPaths(r, ignored, next);
      AllAnswered(r, ignored, OptionsBelow(r, ignored, next), TrimmedBelow(r, ignored, next), next);
    }
  }

  lemma {:induction false} OptionsOfCount(r: Request, ignored: nat, next: nat, count: nat)
    requires r.config.variationPercent <= 100
    ensures forall o | o in DirectOptions(r, ignored) :: o in OptionsBelow(r, ignored, next)
    ensures FirstCount(r, ignored) <= count < next ==>
              forall s | s in CountPaths(r, ignored, count) :: ToOption(r, s) in OptionsBelow(r, ignored, next)
  {
    hide CountPaths, ToOptions, DirectOptions, FirstCount;
    if next > FirstCount(r, ignored) {
      OptionsOfCount(r, ignored, next - 1, count);
      ToOptionsMembers(r, CountPaths(r, ignored, next - 1));
    }
  }

  /** The searched count drops nothing, neither on the way nor at the end. */
  ghost predicate CountComplete(r: Request, ignored: nat, count: nat) {
    Validate(r).None? && FirstCount(r, ignored) <= count <= StructuralBound(r) ==>
      CountUncut(r, count) && !CountTrimmed(r, ignored, count)
  }

  /** A search that drops nothing at all drops nothing of any count. */
  lemma CompleteSearchCounts(r: Request, ignored: nat, count: nat)
    requires SearchUncut(r, ignored) && !SearchTrimmed(r, ignored)
    ensures CountComplete(r, ignored, count)
  {
    hide Validate, CountUncut, CountTrimmed, FirstCount, StructuralBound;
  }

  /** Such a count has every feasible path among the options, whatever happens
      at other counts. */
  lemma CompleteCountIsOffered(r: Request, ignored: nat, xs: seq<nat>)
    requires Validate(r).None? && CountComplete(r, ignored, |xs|)
    requires Feasible(r, ignored, xs) && |xs| <= r.config.maxIntermediates
    ensures HasOption(SearchOf(r, ignored).options, xs)
  {
    hide Validate, Feasible, CountUncut, CountTrimmed, CountPaths, OptionsBelow, AvailableTracks, MinimumFrom,
      DirectOptions,
      AnsweredBelow;
    ValidLimits(r);
    FeasibleCount(r, ignored, xs);
    OptionsOfCount(r, ignored, StructuralBound(r) + 1, |xs|);
    if xs == [] {
      DirectSound(r, ignored);
      DirectIsOffered(r, ignored);
    } else {
      CountPathsAnswer(r, ignored, |xs|, xs);
      PathOfAnswer(r, CountPaths(r, ignored, |xs|), xs);
      var s :| s in CountPaths(r, ignored, |xs|) && s.intermediates == xs;
      assert ToOption(r, s) in SearchOf(r, ignored).options;
    }
  }

  lemma DirectIsOffered(r: Request, ignored: nat)
    requires AnsweredBelow(r, ignored, DirectOptions(r, ignored), false, 1) && Feasible(r, ignored, [])
    ensures HasOption(DirectOptions(r, ignored), [])
  {
    hide Feasible, DirectOptions;
    AnsweredFully(r, DirectOptions(r, ignored), []);
  }

  lemma PathOfAnswer(r: Request, chosen: seq<PathState>, xs: seq<nat>)
    requires Answers(r, chosen, false, xs)
    ensures HasPath(chosen, xs)
  {
    hide KeyLe, PathKey;
  }

  lemma OnlyEmptyPath(r: Request, ignored: nat, xs: seq<nat>)
    requires Feasible(r, ignored, xs) && xs == []
    ensures LeastFeasible(r, ignored, xs)
  {
    hide Feasible, PathKey, KeyLe;
    KeyLeTotal(PathKey(r, []), PathKey(r, []));
  }

  lemma {:induction false} OptionsKeepLeast(r: Request, ignored: nat, next: nat)
    requires r.config.variationPercent == 0 && r.config.alternativesPerCount == 1
    requires next <= StructuralBound(r) + 1 && UncutBelow(r, ignored, next)
    ensures forall o | o in OptionsBelow(r, ignored, next) :: LeastFeasible(r, ignored, o.intermediates)
  {
    hide CountPaths, ToOptions, DirectOptions, CountUncut, FirstCount, LeastFeasible, Feasible, StructuralBound;
    if next <= FirstCount(r, ignored) {
      DirectSound(r, ignored);
      forall o | o in DirectOptions(r, ignored) ensures LeastFeasible(r, ignored, o.intermediates) {
        assert GoodOption(r, ignored, o);
        OnlyEmptyPath(r, ignored, o.intermediates);
      }
    } else {
      OptionsKeepLeast(r, ignored, next - 1);
      CountKeepsLeast(r, ignored, next - 1);
      ToOptionsMembers(r, CountPaths(r, ignored, next - 1));
    }
  }

  /** Without variation, a search that keeps one path a count and is not cut
      offers the least feasible path of every count that has one, nothing else. */
  lemma SearchKeepsLeast(r: Request, ignored: nat)
    requires Validate(r).None? && SearchUncut(r, ignored)
    requires r.config.variationPercent == 0 && r.config.alternativesPerCount == 1
    ensures var options := SearchOf(r, ignored).options;
            && (forall o | o in options :: LeastFeasible(r, ignored, o.intermediates))
            && (forall xs: seq<nat> | |xs| <= r.config.maxIntermediates && Feasible(r, ignored, xs) ::
                  exists o :: o in options && |o.intermediates| == |xs|)
  {
    hide Validate, UncutBelow, OptionsBelow, StructuralBound, Feasible, LeastFeasible, AllGood, KeyLe, PathKey,
      WorstLimit;
    ValidLimits(r);
    OptionsKeepLeast(r, ignored, StructuralBound(r) + 1);
    SearchAnswers(r, ignored);
    forall xs: seq<nat> | |xs| <= r.config.maxIntermediates && Feasible(r, ignored, xs)
      ensures exists o :: o in SearchOf(r, ignored).options && |o.intermediates| == |xs|
    {
      assert OptionsAnswer(r, SearchOf(r, ignored).options, SearchTrimmed(r, ignored), xs);
    }
  }

  /** The least feasible path itself is offered. */
  lemma LeastIsOffered(r: Request, ignored: nat, xs: seq<nat>)
    requires Validate(r).None? && SearchUncut(r, ignored)
    requires r.config.variationPercent == 0 && r.config.alternativesPerCount == 1
    requires LeastFeasible(r, ignored, xs) && |xs| <= r.config.maxIntermediates
    ensures HasOption(SearchOf(r, ignored).options, xs)
  {
    hide Validate, SearchUncut, OptionsBelow, StructuralBound, Feasible, KeyLe, PathKey;
    SearchKeepsLeast(r, ignored);
    var o :| o in SearchOf(r, ignored).options && |o.intermediates| == |xs|;
    LeastIsUnique(r, ignored, o.intermediates, xs);
  }

  /** Limits that cover all there is are never felt. */
  lemma RoomySearchUncut(r: Request, ignored: nat)
    ensures NonBinding(r) ==> SearchUncut(r, ignored)
    ensures r.config.alternativesPerCount >= Power(|Available(r)|, StructuralBound(r)) ==> !SearchTrimmed(r, ignored)
    ensures OnePerCount(r, ignored) ==> !SearchTrimmed(r, ignored)
  {
    hide Validate, CountUncut, CountTrimmed, NonBinding, OnePerCount, Power, FirstCount, AvailableTracks;
    forall n | FirstCount(r, ignored) <= n < StructuralBound(r) + 1 && Validate(r).None?
      ensures NonBinding(r) ==> CountUncut(r, n)
      ensures r.config.alternativesPerCount >= Power(|Available(r)|, StructuralBound(r)) ==>
              !CountTrimmed(r, ignored, n)
      ensures OnePerCount(r, ignored) ==> !CountTrimmed(r, ignored, n)
    {
      ValidLimits(r);
      CountFinishedSound(r, ignored, n);
      PowerGrows(|Available(r)|, n, StructuralBound(r));
      if NonBinding(r) {
        NonBindingCount(r, n);
      }
    }
  }

  /** Anchored path search.  Every option is a complete repeat-safe path with
      its true cost, whatever the limits; when no limit cuts, every feasible
      path with at most the permitted intermediates is answered.  `cut` and
      `trimmed` say exactly whether some limit was felt. */
  method Search(r: Request, ignored: nat) returns (result: SearchResult, ghost cut: bool, ghost trimmed: bool)
    ensures result == SearchOf(r, ignored)
    ensures cut <==> !SearchUncut(r, ignored)
    ensures trimmed <==> SearchTrimmed(r, ignored)
    ensures RefusedRightly(r, if result.Rejected? then Some(result.error) else None)
    ensures result.Rejected? <==> Validate(r).Some?
    ensures result.Rejected? ==> Validate(r) == Some(result.error)
    ensures result.Found? ==> AllGood(r, ignored, result.options)
    ensures result.Found? ==> DistinctBy(result.options, IntermediatesOf)
    ensures result.Found? ==> |result.options| <= Geometric(|Available(r)|, StructuralBound(r))
    ensures NonBinding(r) ==> !cut
    ensures r.config.alternativesPerCount >= Power(|Available(r)|, StructuralBound(r)) ==> !trimmed
    ensures OnePerCount(r, ignored) ==> !trimmed
    ensures result.Found? && !cut ==>
              forall xs: seq<nat> | |xs| <= r.config.maxIntermediates && Feasible(r, ignored, xs) ::
                OptionsAnswer(r, result.options, trimmed, xs)
  {
    hide Validate, Feasible, OptionsAnswer, AllGood, Power, NonBinding, OnePerCount, UncutBelow, TrimmedBelow,
      Geometric, StructuralBound, OptionsBelow, RefusedRightly;
    RoomySearchUncut(r, ignored);
    ValidationDecides(r);
    var invalid := Validate(r);
    if invalid.Some? {
      return Rejected(invalid.value), false, false;
    }
    SearchAnswers(r, ignored);
    ValidLimits(r);
    var options;
    options, cut, trimmed := SearchCounts(r, ignored);
    return Found(options), cut, trimmed;
  }

  /** The counts from the computed minimum to the structural bound, in turn. */
  method SearchCounts(r: Request, ignored: nat) returns (options: seq<PathOption>, ghost cut: bool, ghost trimmed: bool)
    requires Validate(r).None? && r.config.variationPercent <= 100
    ensures options == OptionsBelow(r, ignored, StructuralBound(r) + 1)
    ensures cut <==> !UncutBelow(r, ignored, StructuralBound(r) + 1)
    ensures trimmed <==> TrimmedBelow(r, ignored, StructuralBound(r) + 1)
  {
    hide AvailableTracks, Validate, Feasible, Answers, AllComplete, MinimumFrom, RightAnchorSafe, Power, NonBinding,
      OnePerCount, ToOptions, CountPaths, CountUncut, CountTrimmed, UncutBelow, TrimmedBelow, StructuralBound;
    var bound := StructuralBound(r);
    var minimum := MinimumIntermediates(r, ignored);
    var direct := r.score(r.routePrefix, r.rightAnchor);
    options := [];
    if direct.Some? && RightAnchorSafe(r.policy, RepeatPrefix(r) + [r.rightAnchor], ignored) {
      options := ToOptions(r, [DirectState(direct.value)]);
    }
    cut, trimmed := false, false;
    var requested := Max(minimum, 1);
    NothingBelow(r, ignored, requested);
    while requested <= bound
      invariant FirstCount(r, ignored) <= requested
      invariant options == OptionsBelow(r, ignored, requested)
      invariant requested <= bound + 1 || requested == FirstCount(r, ignored)
      invariant cut <==> !UncutBelow(r, ignored, requested)
      invariant trimmed <==> TrimmedBelow(r, ignored, requested)
      decreases Minus(bound + 1, requested)
    {
      var chosen;
      ghost var cutHere, trimmedHere;
      chosen, cutHere, trimmedHere := SearchCount(r, ignored, requested, direct);
      TrimmedStep(r, ignored, requested);
      cut, trimmed := cut || cutHere, trimmed || trimmedHere;
      options := options + ToOptions(r, chosen);
      requested := requested + 1;
    }
    if requested > bound + 1 {
      NothingBelow(r, ignored, bound + 1);
    }
  }

  lemma NothingBelow(r: Request, ignored: nat, next: nat)
    requires next <= FirstCount(r, ignored)
    ensures UncutBelow(r, ignored, next) && !TrimmedBelow(r, ignored, next)
  {
  }

  lemma DirectDone(r: Request, ignored: nat, options: seq<PathOption>, direct: Option<Distance>)
    requires direct.Some? <==> r.score(r.routePrefix, r.rightAnchor).Some?
    requires Feasible(r, ignored, []) ==>
               direct.Some? && options == ToOptions(r, [DirectState(direct.value)]) &&
               GoodComplete(r, ignored, 0, DirectState(direct.value)) &&
               Answers(r, [DirectState(direct.value)], false, [])
    requires !Feasible(r, ignored, []) ==> options == []
    ensures AllGood(r, ignored, options) && |options| <= 1
    ensures forall o | o in options :: |o.intermediates| == 0
    ensures AnsweredBelow(r, ignored, options, false, 1)
  {
    hide Feasible, PathKey, AvailableTracks, Answers, OptionsAnswer;
    if Feasible(r, ignored, []) {
      var chosen := [DirectState(direct.value)];
      AllGoodGrows(r, ignored, [], chosen, 0);
      assert [] + ToOptions(r, chosen) == options;
      AnswersCarryOver(r, [], false, chosen, false, 0, []);
    }
    forall xs: seq<nat> | |xs| < 1 && Feasible(r, ignored, xs) ensures OptionsAnswer(r, options, false, xs) {
      assert xs == [];
    }
  }

  lemma CountsGrow(r: Request, ignored: nat, options: seq<PathOption>, chosen: seq<PathState>, requested: nat)
    requires forall o | o in options :: |o.intermediates| < requested
    requires AllComplete(r, ignored, requested, chosen)
    ensures forall o | o in options + ToOptions(r, chosen) :: |o.intermediates| < requested + 1
  {
    hide Feasible, PathKey, ToOptions, AvailableTracks;
    ToOptionsMembers(r, chosen);
    forall o | o in options + ToOptions(r, chosen) ensures |o.intermediates| < requested + 1 {
      if o !in options {
        var s :| s in chosen && o == ToOption(r, s);
        assert GoodComplete(r, ignored, requested, s);
      }
    }
  }

  lemma AllAnswered(r: Request, ignored: nat, options: seq<PathOption>, trimmed: bool, next: nat)
    requires AnsweredBelow(r, ignored, options, trimmed, next) && next > StructuralBound(r)
    ensures forall xs: seq<nat> | |xs| <= r.config.maxIntermediates && Feasible(r, ignored, xs) ::
              OptionsAnswer(r, options, trimmed, xs)
  {
    hide Feasible, OptionsAnswer, AvailableTracks;
    forall xs: seq<nat> | |xs| <= r.config.maxIntermediates && Feasible(r, ignored, xs)
      ensures OptionsAnswer(r, options, trimmed, xs)
    {
      FeasibleCount(r, ignored, xs);
    }
  }
}
