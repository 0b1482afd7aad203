/** Route scoring through a shared cache, and the local search over
    reversals and relocations. */
module LocalSearch {
  import opened Wrappers
  import opened Repeats
  import opened Ordering
  import opened AnchoredPath

  const EPSILON: real := 0.000000000001

  /** Intensity by track and the target intensity by position. */
  datatype Arc = Arc(intensities: seq<real>, targets: seq<real>)

  /** `metric` is the adaptive distance from a seed list to a candidate; None
      is a scoring failure. */
  datatype Setting = Setting(policy: Policy, metric: Scorer, seedLimit: nat, arc: Option<Arc>)

  // ----- the score cache -----

  /** The last `limit` tracks of a prefix: all the metric ever reads. */
  function Seeds(prefix: seq<nat>, limit: nat): seq<nat> {
    prefix[Minus(|prefix|, limit)..]
  }

  /** The distance an empty cache would give. */
  function FreshDistance(setting: Setting, prefix: seq<nat>, candidate: nat): Option<Distance> {
    setting.metric(Seeds(prefix, setting.seedLimit), candidate)
  }

  /** The distance depends on the last `seedLimit` tracks before the candidate,
      on all of them while there are fewer, and on nothing earlier. */
  lemma LastTracksDecide(setting: Setting, earlier: seq<nat>, last: seq<nat>, candidate: nat)
    requires |last| == setting.seedLimit || (earlier == [] && |last| < setting.seedLimit)
    ensures FreshDistance(setting, earlier + last, candidate) == setting.metric(last, candidate)
  {
    assert (earlier + last)[|earlier|..] == last;
  }

  class ScoreCache {
    var entries: map<(seq<nat>, nat), Distance>

    /** Every entry is what the metric says for its key. */
    ghost predicate Coherent(metric: Scorer)
      reads this
    {
      forall key | key in entries :: metric(key.0, key.1) == Some(entries[key])
    }

    constructor ()
      ensures entries == map[]
    {
      entries := map[];
    }

    method TransitionDistance(setting: Setting, prefix: seq<nat>, candidate: nat) returns (d: Option<Distance>)
      requires Coherent(setting.metric)
      modifies this
      ensures Coherent(setting.metric)
      ensures d == FreshDistance(setting, prefix, candidate)
      ensures var from := if |prefix| <= setting.seedLimit then 0 else |prefix| - setting.seedLimit;
              d == setting.metric(prefix[from..], candidate)
      ensures forall key | key in old(entries) :: key in entries && entries[key] == old(entries)[key]
      ensures d.Some? ==> entries == old(entries)[(Seeds(prefix, setting.seedLimit), candidate) := d.value]
      ensures d.None? ==> entries == old(entries)
    {
      var key := (Seeds(prefix, setting.seedLimit), candidate);
      if key in entries {
        return Some(entries[key]);
      }
      d := setting.metric(key.0, candidate);
      if d.Some? {
        entries := entries[key := d.value];
      }
    }
  }

  // ----- metrics -----

  datatype Metrics = Metrics(transitionSum: real, worstTransition: real, objective: real, arcError: real)

  /** Sum and worst leg of the first `n` route members; None when scoring fails. */
  ghost function LegsUpTo(setting: Setting, route: seq<nat>, n: nat): Option<Cost>
    requires n <= |route|
  {
    if n <= 1 then Some(Cost(0.0, 0.0))
    else AddLeg(LegsUpTo(setting, route, n - 1), FreshDistance(setting, route[..n - 1], route[n - 1]))
  }

  function Abs(x: real): real {
    if x < 0.0 then -x else x
  }

  function At(xs: seq<real>, i: nat): real {
    if i < |xs| then xs[i] else 0.0
  }

  ghost function ArcErrorUpTo(arc: Arc, route: seq<nat>, n: nat): (e: real)
    requires n <= |route| && n <= |arc.targets|
    ensures e >= 0.0
  {
    if n == 0 then 0.0
    else ArcErrorUpTo(arc, route, n - 1) + Abs(At(arc.intensities, route[n - 1]) - arc.targets[n - 1])
  }

  ghost function ArcError(setting: Setting, route: seq<nat>): (e: real)
    ensures e >= 0.0
  {
    match setting.arc
    case None => 0.0
    case Some(arc) => ArcErrorUpTo(arc, route, if |route| < |arc.targets| then |route| else |arc.targets|)
  }

  ghost function MetricsOf(setting: Setting, route: seq<nat>): Option<Metrics> {
    var legs := LegsUpTo(setting, route, |route|);
    if legs.None? then None
    else Some(Metrics(legs.value.sum, legs.value.worst, legs.value.sum + 2.0 * legs.value.worst,
                      ArcError(setting, route)))
  }

  /** A single track has no legs. */
  lemma MetricsOfOne(setting: Setting, x: nat)
    ensures MetricsOf(setting, [x]).Some?
    ensures var m := MetricsOf(setting, [x]).value;
            && m.transitionSum == m.worstTransition == m.objective == 0.0
            && m.arcError == match setting.arc
                             case Some(arc) => if arc.targets == [] then 0.0 else Distant(arc, x, 0)
                             case None => 0.0
  {
    if setting.arc.Some? && setting.arc.value.targets != [] {
      assert ArcErrorUpTo(setting.arc.value, [x], 0) == 0.0;
    }
  }

  /** How far the intensity of a track is from the target of its place. */
  function Distant(arc: Arc, x: nat, position: nat): real
    requires position < |arc.targets|
  {
    var intensity, target := (if x < |arc.intensities| then arc.intensities[x] else 0.0), arc.targets[position];
    if intensity < target then target - intensity else intensity - target
  }

  lemma {:induction false} LegsOfPrefix(setting: Setting, route: seq<nat>, more: seq<nat>, n: nat)
    requires n <= |route|
    ensures LegsUpTo(setting, route + more, n) == LegsUpTo(setting, route, n)
  {
    if n > 1 {
      LegsOfPrefix(setting, route, more, n - 1);
      assert (route + more)[..n - 1] == route[..n - 1];
    }
  }

  lemma {:induction false} ArcErrorOfPrefix(arc: Arc, route: seq<nat>, more: seq<nat>, n: nat)
    requires n <= |route| && n <= |arc.targets|
    ensures ArcErrorUpTo(arc, route + more, n) == ArcErrorUpTo(arc, route, n)
  {
    if n > 0 {
      ArcErrorOfPrefix(arc, route, more, n - 1);
    }
  }

  lemma ArcErrorStep(setting: Setting, route: seq<nat>, x: nat)
    ensures ArcError(setting, route + [x]) - ArcError(setting, route) ==
            match setting.arc
            case Some(arc) => if |route| < |arc.targets| then Distant(arc, x, |route|) else 0.0
            case None => 0.0
  {
    if setting.arc.Some? {
      var arc := setting.arc.value;
      ArcErrorOfPrefix(arc, route, [x], if |route| < |arc.targets| then |route| else |arc.targets|);
    }
  }

  /** One more track costs the metric from the last `seedLimit` tracks before
      it: added to the sum, compared with the worst leg, which counts double. */
  lemma MetricsGrow(setting: Setting, earlier: seq<nat>, last: seq<nat>, x: nat)
    requires last != [] || earlier != []
    requires |last| == setting.seedLimit || (earlier == [] && |last| < setting.seedLimit)
    ensures var route, leg := earlier + last, setting.metric(last, x);
            && (MetricsOf(setting, route + [x]).Some? <==> MetricsOf(setting, route).Some? && leg.Some?)
            && (MetricsOf(setting, route + [x]).Some? ==>
                  var before, after := MetricsOf(setting, route).value, MetricsOf(setting, route + [x]).value;
                  && after.transitionSum == before.transitionSum + leg.value
                  && after.worstTransition ==
                     (if leg.value > before.worstTransition then leg.value else before.worstTransition)
                  && after.objective == after.transitionSum + after.worstTransition + after.worstTransition
                  && after.arcError - before.arcError ==
                     match setting.arc
                     case Some(arc) => if |route| < |arc.targets| then Distant(arc, x, |route|) else 0.0
                     case None => 0.0)
  {
    hide ArcError, FreshDistance;
    var route := earlier + last;
    LegsOfPrefix(setting, route, [x], |route|);
    LastTracksDecide(setting, earlier, last, x);
    ArcErrorStep(setting, route, x);
    assert (route + [x])[..|route|] == route;
  }

  lemma LegsFail(setting: Setting, route: seq<nat>, n: nat)
    requires n <= |route| && LegsUpTo(setting, route, n).None?
    ensures LegsUpTo(setting, route, |route|).None?
    decreases |route| - n
  {
    if n < |route| {
      LegsFail(setting, route, n + 1);
    }
  }

  /** The metrics of a route do not depend on what the cache held before. */
  method RouteMetrics(setting: Setting, route: seq<nat>, cache: ScoreCache) returns (m: Option<Metrics>)
    requires cache.Coherent(setting.metric)
    modifies cache
    ensures cache.Coherent(setting.metric)
    ensures m == MetricsOf(setting, route)
  {
    var sum, worst := 0.0, 0.0;
    var position := 1;
    while position < |route|
      invariant 1 <= position
      invariant position <= |route| || |route| == 0
      invariant cache.Coherent(setting.metric)
      invariant |route| > 0 ==> LegsUpTo(setting, route, position) == Some(Cost(sum, worst))
      invariant |route| == 0 ==> sum == 0.0 && worst == 0.0
    {
      var distance := cache.TransitionDistance(setting, route[..position], route[position]);
      if distance.None? {
        LegsFail(setting, route, position + 1);
        return None;
      }
      sum := sum + distance.value;
      worst := MaxReal(worst, distance.value);
      position := position + 1;
    }
    var arcError := 0.0;
    if setting.arc.Some? {
      var arc := setting.arc.value;
      var n := 0;
      while n < |route| && n < |arc.targets|
        invariant 0 <= n <= |route| && n <= |arc.targets|
        invariant arcError == ArcErrorUpTo(arc, route, n)
      {
        arcError := arcError + Abs(At(arc.intensities, route[n]) - arc.targets[n]);
        n := n + 1;
      }
    }
    return Some(Metrics(sum, worst, sum + 2.0 * worst, arcError));
  }

  // ----- repeat violations -----

  datatype Kind = ArtistRepeat | AlbumRepeat
  datatype Violation = Violation(kind: Kind, left: nat, right: nat)

  predicate ArtistViolates(p: Policy, route: seq<nat>, left: nat, right: nat)
    requires left < right < |route|
  {
    p.artistWindow > 0 && right - left <= p.artistWindow &&
    ArtistsRepeat(TrackAt(p, route[left]), TrackAt(p, route[right]))
  }

  predicate AlbumViolates(p: Policy, route: seq<nat>, left: nat, right: nat)
    requires left < right < |route|
  {
    p.albumWindow > 0 && right - left <= p.albumWindow &&
    AlbumsRepeat(TrackAt(p, route[left]), TrackAt(p, route[right]))
  }

  function PairViolations(p: Policy, route: seq<nat>, left: nat, right: nat): seq<Violation>
    requires left < right < |route|
  {
    (if ArtistViolates(p, route, left, right) then [Violation(ArtistRepeat, left, right)] else []) +
    (if AlbumViolates(p, route, left, right) then [Violation(AlbumRepeat, left, right)] else [])
  }

  function ViolationsAt(p: Policy, route: seq<nat>, left: nat, right: nat): seq<Violation>
    requires left <= right < |route|
  {
    if left == 0 then [] else ViolationsAt(p, route, left - 1, right) + PairViolations(p, route, left - 1, right)
  }

  function ViolationsBefore(p: Policy, route: seq<nat>, right: nat): seq<Violation>
    requires right <= |route|
  {
    if right == 0 then [] else ViolationsBefore(p, route, right - 1) + ViolationsAt(p, route, right - 1, right - 1)
  }

  /** Every pair inside its artist or album window, once per identity. */
  function Violations(p: Policy, route: seq<nat>): seq<Violation> {
    ViolationsBefore(p, route, |route|)
  }

  /** The pair it names stands inside the window of its identity. */
  ghost predicate Violates(p: Policy, route: seq<nat>, v: Violation) {
    && v.left < v.right < |route|
    && match v.kind
       case ArtistRepeat =>
         p.artistWindow >= v.right - v.left && ArtistsRepeat(TrackAt(p, route[v.left]), TrackAt(p, route[v.right]))
       case AlbumRepeat =>
         p.albumWindow >= v.right - v.left && AlbumsRepeat(TrackAt(p, route[v.left]), TrackAt(p, route[v.right]))
  }

  lemma PairCount(p: Policy, route: seq<nat>, left: nat, right: nat, v: Violation)
    requires left < right < |route|
    ensures multiset(PairViolations(p, route, left, right))[v] ==
            if v.left == left && v.right == right && Violates(p, route, v) then 1 else 0
  {
    hide ArtistsRepeat, AlbumsRepeat;
    if v.left == left && v.right == right {
      assert v == Violation(v.kind, left, right);
    }
  }

  lemma {:induction false} ViolationsAtCount(p: Policy, route: seq<nat>, left: nat, right: nat, v: Violation)
    requires left <= right < |route|
    ensures multiset(ViolationsAt(p, route, left, right))[v] ==
            if v.right == right && v.left < left && Violates(p, route, v) then 1 else 0
  {
    hide PairViolations, Violates;
    if left > 0 {
      ViolationsAtCount(p, route, left - 1, right, v);
      PairCount(p, route, left - 1, right, v);
    }
  }

  lemma {:induction false} ViolationsBeforeCount(p: Policy, route: seq<nat>, right: nat, v: Violation)
    requires right <= |route|
    ensures multiset(ViolationsBefore(p, route, right))[v] == if v.right < right && Violates(p, route, v) then 1 else 0
  {
    hide ArtistViolates, AlbumViolates, ViolationsAt;
    if right > 0 {
      ViolationsBeforeCount(p, route, right - 1, v);
      ViolationsAtCount(p, route, right - 1, right - 1, v);
    }
  }

  /** A violation is listed exactly when its pair violates, and then once: the
      length of the list counts the violating pairs by identity. */
  lemma ViolationsAreCounted(p: Policy, route: seq<nat>, v: Violation)
    ensures v in Violations(p, route) <==> Violates(p, route, v)
    ensures multiset(Violations(p, route))[v] <= 1
  {
    hide ArtistViolates, AlbumViolates, ViolationsBefore;
    ViolationsBeforeCount(p, route, |route|, v);
    assert v in Violations(p, route) <==> v in multiset(Violations(p, route));
  }

  method RepeatViolations(p: Policy, route: seq<nat>) returns (violations: seq<Violation>)
    ensures violations == Violations(p, route)
    ensures forall v :: multiset(violations)[v] == if Violates(p, route, v) then 1 else 0
  {
    hide Violates, ArtistViolates, AlbumViolates;
    violations := [];
    for right := 0 to |route|
      invariant violations == ViolationsBefore(p, route, right)
    {
      for left := 0 to right
        invariant violations == ViolationsBefore(p, route, right) + ViolationsAt(p, route, left, right)
      {
        if ArtistViolates(p, route, left, right) {
          violations := violations + [Violation(ArtistRepeat, left, right)];
        }
        if AlbumViolates(p, route, left, right) {
          violations := violations + [Violation(AlbumRepeat, left, right)];
        }
      }
    }
    forall v ensures multiset(violations)[v] == if Violates(p, route, v) then 1 else 0 {
      ViolationsBeforeCount(p, route, |route|, v);
      ViolationInside(p, route, v);
    }
  }

  lemma ViolationInside(p: Policy, route: seq<nat>, v: Violation)
    ensures Violates(p, route, v) ==> v.right < |route|
  {
  }

  lemma {:induction false} ViolationsAtEmpty(p: Policy, route: seq<nat>, left: nat, right: nat)
    requires left <= right < |route|
    ensures ViolationsAt(p, route, left, right) == [] <==>
            forall l | 0 <= l < left :: !KeysTooClose(p, route[l], route[right], right - l)
  {
    hide ArtistsRepeat, AlbumsRepeat;
    if left > 0 {
      ViolationsAtEmpty(p, route, left - 1, right);
    }
  }

  /** The search's notion of a clean route is the planners' window test: no
      position is too close to any other. */
  lemma {:induction false} NoViolationsMeansSafe(p: Policy, route: seq<nat>, right: nat)
    requires right <= |route|
    ensures ViolationsBefore(p, route, right) == [] <==>
            forall l, r | 0 <= l < r < right :: !KeysTooClose(p, route[l], route[r], r - l)
  {
    hide KeysTooClose;
    if right > 0 {
      NoViolationsMeansSafe(p, route, right - 1);
      ViolationsAtEmpty(p, route, right - 1, right - 1);
    }
  }

  /** Zero violations is exactly a clean route. */
  lemma CleanRouteHasNoViolations(p: Policy, route: seq<nat>)
    ensures Violations(p, route) == [] <==> CleanRoute(p, route)
  {
    hide KeysTooClose;
    NoViolationsMeansSafe(p, route, |route|);
  }

  // ----- the local search -----

  datatype LocalKey = LocalKey(repeatViolations: nat, score: real)

  /** Violations first, then the score beyond the tie tolerance. */
  predicate KeyPrecedes(left: LocalKey, right: LocalKey) {
    || left.repeatViolations < right.repeatViolations
    || (left.repeatViolations == right.repeatViolations && left.score + EPSILON < right.score)
  }

  predicate Tied(left: LocalKey, right: LocalKey) {
    left.repeatViolations == right.repeatViolations && Abs(left.score - right.score) <= EPSILON
  }

  function SearchScore(m: Metrics, arcAware: bool): real {
    m.objective + if arcAware then 0.12 * m.arcError else 0.0
  }

  ghost function KeyOf(setting: Setting, route: seq<nat>): Option<LocalKey> {
    var m := MetricsOf(setting, route);
    if m.None? then None
    else Some(LocalKey(|Violations(setting.policy, route)|, SearchScore(m.value, setting.arc.Some?)))
  }

  lemma {:induction false} LegsNonNegative(setting: Setting, route: seq<nat>, n: nat)
    requires n <= |route| && LegsUpTo(setting, route, n).Some?
    ensures LegsUpTo(setting, route, n).value.sum >= 0.0 && LegsUpTo(setting, route, n).value.worst >= 0.0
  {
    if n > 1 {
      LegsNonNegative(setting, route, n - 1);
    }
  }

  /** Scores over non-negative distances are non-negative. */
  lemma KeyNonNegative(setting: Setting, route: seq<nat>)
    requires KeyOf(setting, route).Some?
    ensures KeyOf(setting, route).value.score >= 0.0
  {
    hide Violations;
    LegsNonNegative(setting, route, |route|);
  }

  function Reversed(xs: seq<nat>): (r: seq<nat>)
    ensures |r| == |xs|
    ensures multiset(r) == multiset(xs)
  {
    if xs == [] then []
    else
      assert xs == [xs[0]] + xs[1..];
      Reversed(xs[1..]) + [xs[0]]
  }

  /** The route with positions `start` to `end` reversed. */
  function Reversal(route: seq<nat>, start: nat, end: nat): seq<nat>
    requires start < end < |route|
  {
    route[..start] + Reversed(route[start..end + 1]) + route[end + 1..]
  }

  function Without(route: seq<nat>, source: nat): seq<nat>
    requires source < |route|
  {
    route[..source] + route[source + 1..]
  }

  /** The track at `source` taken out and put back at `destination`. */
  function Relocation(route: seq<nat>, source: nat, destination: nat): seq<nat>
    requires source < |route| && destination < |route|
  {
    var shortened := Without(route, source);
    shortened[..destination] + [route[source]] + shortened[destination..]
  }

  lemma ReversalKeepsTracks(route: seq<nat>, start: nat, end: nat)
    requires start < end < |route|
    ensures multiset(Reversal(route, start, end)) == multiset(route)
  {
    assert route == route[..start] + route[start..end + 1] + route[end + 1..];
  }

  lemma RelocationKeepsTracks(route: seq<nat>, source: nat, destination: nat)
    requires source < |route| && destination < |route|
    ensures multiset(Relocation(route, source, destination)) == multiset(route)
  {
    var shortened, x := Without(route, source), [route[source]];
    var front, back := shortened[..destination], shortened[destination..];
    MultisetMoves(route[..source], x, route[source + 1..]);
    MultisetMoves(front, x, back);
    assert route == route[..source] + x + route[source + 1..];
    assert route[..source] + route[source + 1..] == shortened == front + back;
  }

  lemma MultisetMoves(a: seq<nat>, x: seq<nat>, b: seq<nat>)
    ensures multiset(a + x + b) == multiset(a + b) + multiset(x)
  {
  }

  /** After `considered` neighbours the kept key is no worse than `other`,
      up to one tolerance for each neighbour: ties may drift it upwards. */
  ghost predicate NoWorse(best: LocalKey, other: LocalKey, considered: nat) {
    || best.repeatViolations < other.repeatViolations
    || (best.repeatViolations == other.repeatViolations && best.score <= other.score + considered as real * EPSILON)
  }

  ghost predicate Bounded(setting: Setting, best: LocalKey, neighbour: seq<nat>, considered: nat) {
    KeyOf(setting, neighbour).Some? && NoWorse(best, KeyOf(setting, neighbour).value, considered)
  }

  /** One more neighbour: whether taken or not, every bound loosens by at most
      one tolerance and the new neighbour is bounded too. */
  lemma ConsideringDrifts(best: LocalKey, key: LocalKey, next: LocalKey, other: LocalKey, considered: nat)
    requires next == best || (next == key && (KeyPrecedes(key, best) || Tied(key, best)))
    requires next == best ==> !KeyPrecedes(key, best)
    ensures NoWorse(best, other, considered) ==> NoWorse(next, other, considered + 1)
    ensures NoWorse(next, key, considered + 1)
  {
    assert (considered + 1) as real * EPSILON == considered as real * EPSILON + EPSILON;
    assert considered as real * EPSILON >= 0.0;
  }

  predicate LexBefore(a: seq<nat>, b: seq<nat>) {
    LexLe(a, b) && a != b
  }

  /** Takes a neighbour that precedes the best one, or ties with it and comes
      first lexicographically. */
  method ConsiderNeighbour(setting: Setting, candidate: seq<nat>, best: seq<nat>, bestKey: LocalKey, cache: ScoreCache)
    returns (ok: bool, nextBest: seq<nat>, nextKey: LocalKey)
    requires cache.Coherent(setting.metric)
    modifies cache
    ensures cache.Coherent(setting.metric)
    ensures ok <==> KeyOf(setting, candidate).Some?
    ensures ok ==>
              var key := KeyOf(setting, candidate).value;
              var gain := bestKey.score - key.score;
              var taken := key.repeatViolations < bestKey.repeatViolations ||
                           (key.repeatViolations == bestKey.repeatViolations &&
                            (gain > 0.000000000001 ||
                             (-0.000000000001 <= gain && LexLe(candidate, best) && candidate != best)));
              nextBest == (if taken then candidate else best) && nextKey == (if taken then key else bestKey)
  {
    hide Violations, LegsUpTo;
    var m := RouteMetrics(setting, candidate, cache);
    if m.None? {
      return false, best, bestKey;
    }
    var violations := RepeatViolations(setting.policy, candidate);
    var key := LocalKey(|violations|, SearchScore(m.value, setting.arc.Some?));
    if KeyPrecedes(key, bestKey) || (Tied(key, bestKey) && LexBefore(candidate, best)) {
      return true, candidate, key;
    }
    return true, best, bestKey;
  }

  // ----- one pass as a function -----

  datatype Incumbent = Incumbent(route: seq<nat>, key: LocalKey)

  /** The incumbent once `candidate` has been considered. */
  function Considered(best: Incumbent, candidate: seq<nat>, key: LocalKey): Incumbent {
    if KeyPrecedes(key, best.key) || (Tied(key, best.key) && LexBefore(candidate, best.route))
    then Incumbent(candidate, key) else best
  }

  /** The incumbent after a list of candidates in order; None once one of them
      cannot be scored. */
  ghost function BestAfter(setting: Setting, first: Incumbent, candidates: seq<seq<nat>>): Option<Incumbent> {
    if candidates == [] then Some(first)
    else
      var n := |candidates| - 1;
      var best, key := BestAfter(setting, first, candidates[..n]), KeyOf(setting, candidates[n]);
      if best.None? || key.None? then None else Some(Considered(best.value, candidates[n], key.value))
  }

  lemma BestAfterOne(setting: Setting, first: Incumbent, candidates: seq<seq<nat>>, candidate: seq<nat>)
    ensures BestAfter(setting, first, candidates + [candidate]) ==
            var best, key := BestAfter(setting, first, candidates), KeyOf(setting, candidate);
            if best.None? || key.None? then None else Some(Considered(best.value, candidate, key.value))
  {
    assert (candidates + [candidate])[..|candidates|] == candidates;
  }

  /** The pass over these candidates has left this incumbent. */
  ghost predicate Leads(setting: Setting, first: Incumbent, candidates: seq<seq<nat>>, best: seq<nat>,
                        bestKey: LocalKey) {
    BestAfter(setting, first, candidates) == Some(Incumbent(best, bestKey))
  }

  /** One more candidate, scored or not. */
  lemma LeadsOn(setting: Setting, first: Incumbent, candidates: seq<seq<nat>>, best: seq<nat>, bestKey: LocalKey,
                candidate: seq<nat>, more: seq<seq<nat>>, nextBest: seq<nat>, nextKey: LocalKey)
    requires Leads(setting, first, candidates, best, bestKey) && more == candidates + [candidate]
    requires KeyOf(setting, candidate).Some? ==>
               Incumbent(nextBest, nextKey) ==
               Considered(Incumbent(best, bestKey), candidate, KeyOf(setting, candidate).value)
    ensures KeyOf(setting, candidate).Some? ==> Leads(setting, first, more, nextBest, nextKey)
    ensures KeyOf(setting, candidate).None? ==> BestAfter(setting, first, more).None?
  {
    hide KeyOf, Considered;
    BestAfterOne(setting, first, candidates, candidate);
  }

  lemma {:induction false} BestAfterFails(setting: Setting, first: Incumbent, candidates: seq<seq<nat>>,
                                          more: seq<seq<nat>>)
    requires BestAfter(setting, first, candidates).None?
    ensures BestAfter(setting, first, candidates + more).None?
  {
    hide KeyOf, Considered;
    if more == [] {
      assert candidates + more == candidates;
    } else {
      var n := |more| - 1;
      BestAfterFails(setting, first, candidates, more[..n]);
      assert candidates + more == (candidates + more[..n]) + [more[n]];
      BestAfterOne(setting, first, candidates + more[..n], more[n]);
    }
  }

  /** Reversals that start at `start` and end before `end`, in order. */
  function RowReversals(route: seq<nat>, start: nat, end: nat): seq<seq<nat>>
    requires end <= |route|
  {
    if end <= start + 1 then [] else RowReversals(route, start, end - 1) + [Reversal(route, start, end - 1)]
  }

  function Reversals(route: seq<nat>, start: nat): seq<seq<nat>>
    requires start <= |route|
  {
    if start == 0 then [] else Reversals(route, start - 1) + RowReversals(route, start - 1, |route|)
  }

  /** Relocations of the track at `source` that change the route, in order. */
  function RowRelocations(route: seq<nat>, source: nat, destination: nat): seq<seq<nat>>
    requires source < |route| && destination <= |route|
  {
    if destination == 0 then []
    else
      var candidate := Relocation(route, source, destination - 1);
      RowRelocations(route, source, destination - 1) + if candidate == route then [] else [candidate]
  }

  function Relocations(route: seq<nat>, source: nat): seq<seq<nat>>
    requires source <= |route|
  {
    if source == 0 then [] else Relocations(route, source - 1) + RowRelocations(route, source - 1, |route|)
  }

  /** Everything one pass considers: all reversals, then all relocations. */
  function Neighbourhood(route: seq<nat>): seq<seq<nat>>
    requires route != []
  {
    Reversals(route, |route| - 1) + Relocations(route, |route|)
  }

  lemma RowReversalsStep(route: seq<nat>, start: nat, end: nat)
    requires start < end < |route|
    ensures RowReversals(route, start, start + 1) == []
    ensures RowReversals(route, start, end + 1) == RowReversals(route, start, end) + [Reversal(route, start, end)]
    ensures Reversals(route, start) + RowReversals(route, start, end + 1) ==
            Reversals(route, start) + RowReversals(route, start, end) + [Reversal(route, start, end)]
  {
    hide Reversal, Reversals;
  }

  lemma ReversalsStep(route: seq<nat>, start: nat)
    requires start < |route|
    ensures Reversals(route, 0) == [] && RowReversals(route, start, start + 1) == []
    ensures Reversals(route, start) + [] == Reversals(route, start)
    ensures Reversals(route, start + 1) == Reversals(route, start) + RowReversals(route, start, |route|)
  {
    hide RowReversals;
    RowStart(route, start);
  }

  lemma RowStart(route: seq<nat>, start: nat)
    requires start < |route|
    ensures RowReversals(route, start, start + 1) == []
  {
  }

  lemma RowRelocationsStep(route: seq<nat>, done: seq<seq<nat>>, source: nat, destination: nat)
    requires source < |route| && destination < |route|
    ensures var candidate := Relocation(route, source, destination);
            done + RowRelocations(route, source, destination + 1) ==
            done + RowRelocations(route, source, destination) + if candidate == route then [] else [candidate]
    ensures done + RowRelocations(route, source, destination) + [] == done + RowRelocations(route, source, destination)
  {
    hide Relocation;
  }

  lemma RelocationsStep(route: seq<nat>, reversals: seq<seq<nat>>, source: nat)
    requires source < |route|
    ensures reversals + Relocations(route, 0) == reversals
    ensures reversals + Relocations(route, source) + RowRelocations(route, source, 0) ==
            reversals + Relocations(route, source)
    ensures reversals + Relocations(route, source) + RowRelocations(route, source, |route|) ==
            reversals + Relocations(route, source + 1)
  {
    hide Relocation;
  }

  lemma {:induction false} RowReversalsPrefix(route: seq<nat>, start: nat, end: nat) returns (more: seq<seq<nat>>)
    requires start < end <= |route|
    ensures RowReversals(route, start, |route|) == RowReversals(route, start, end) + more
    decreases |route| - end
  {
    hide Reversal, RowReversals;
    more := [];
    if end < |route| {
      var rest := RowReversalsPrefix(route, start, end + 1);
      RowReversalsStep(route, start, end);
      more := [Reversal(route, start, end)] + rest;
    }
  }

  lemma {:induction false} ReversalsPrefix(route: seq<nat>, start: nat) returns (more: seq<seq<nat>>)
    requires start < |route|
    ensures Reversals(route, |route| - 1) == Reversals(route, start) + more
    decreases |route| - start
  {
    hide Reversals, RowReversals;
    more := [];
    if start < |route| - 1 {
      var rest := ReversalsPrefix(route, start + 1);
      ReversalsStep(route, start);
      more := RowReversals(route, start, |route|) + rest;
    }
  }

  lemma {:induction false} RowRelocationsPrefix(route: seq<nat>, source: nat, destination: nat)
    returns (more: seq<seq<nat>>)
    requires source < |route| && destination <= |route|
    ensures RowRelocations(route, source, |route|) == RowRelocations(route, source, destination) + more
    decreases |route| - destination
  {
    hide Relocation, RowRelocations;
    more := [];
    if destination < |route| {
      var rest := RowRelocationsPrefix(route, source, destination + 1);
      var candidate := Relocation(route, source, destination);
      RowRelocationsStep(route, [], source, destination);
      more := (if candidate == route then [] else [candidate]) + rest;
      assert [] + RowRelocations(route, source, destination + 1) == RowRelocations(route, source, destination + 1);
      assert [] + RowRelocations(route, source, destination) == RowRelocations(route, source, destination);
    }
  }

  lemma {:induction false} RelocationsPrefix(route: seq<nat>, source: nat) returns (more: seq<seq<nat>>)
    requires source <= |route|
    ensures Relocations(route, |route|) == Relocations(route, source) + more
    decreases |route| - source
  {
    more := [];
    if source < |route| {
      var rest := RelocationsPrefix(route, source + 1);
      more := RowRelocations(route, source, |route|) + rest;
    }
  }

  /** Reversals of an `n`-track route that start before `start`. */
  function ReversalsBefore(n: nat, start: nat): nat
    requires start <= n
  {
    if start == 0 then 0 else ReversalsBefore(n, start - 1) + (n - start)
  }

  lemma {:induction false} ReversalsInAll(n: nat, start: nat)
    requires start <= n
    ensures 2 * ReversalsBefore(n, start) == start * (2 * n - start - 1)
  {
    if start > 0 {
      ReversalsInAll(n, start - 1);
      assert (start - 1) * (2 * n - start) + 2 * (n - start) == start * (2 * n - start - 1);
    }
  }

  /** The most neighbours one pass can consider. */
  function NeighbourBound(n: nat): nat {
    (if n == 0 then 0 else ReversalsBefore(n, n - 1)) + n * n
  }

  /** Working state of one pass. */
  ghost predicate Kept(setting: Setting, route: seq<nat>, current: LocalKey, best: seq<nat>, bestKey: LocalKey) {
    && multiset(best) == multiset(route)
    && KeyOf(setting, best) == Some(bestKey)
    && (bestKey.repeatViolations <= current.repeatViolations)
  }

  ghost predicate Stuck(setting: Setting, route: seq<nat>) {
    exists x: seq<nat> :: multiset(x) == multiset(route) && KeyOf(setting, x).None?
  }

  ghost predicate ReversalsDone(setting: Setting, route: seq<nat>, bestKey: LocalKey, considered: nat, start: nat,
                                end: nat) {
    forall s, e | 0 <= s < e < |route| && (s < start || (s == start && e < end)) ::
      Bounded(setting, bestKey, Reversal(route, s, e), considered)
  }

  ghost predicate RelocationsDone(setting: Setting, route: seq<nat>, bestKey: LocalKey, considered: nat, source: nat,
                                  destination: nat) {
    forall s, d | 0 <= s < |route| && 0 <= d < |route| && (s < source || (s == source && d < destination)) ::
      Relocation(route, s, d) == route || Bounded(setting, bestKey, Relocation(route, s, d), considered)
  }

  /** What one considered neighbour does to every bound so far. */
  ghost predicate Drifts(bestKey: LocalKey, nextKey: LocalKey, considered: nat) {
    forall other :: NoWorse(bestKey, other, considered) ==> NoWorse(nextKey, other, considered + 1)
  }

  lemma StepDrifts(bestKey: LocalKey, key: LocalKey, nextKey: LocalKey, considered: nat)
    requires nextKey == bestKey || (nextKey == key && (KeyPrecedes(key, bestKey) || Tied(key, bestKey)))
    requires nextKey == bestKey ==> !KeyPrecedes(key, bestKey)
    ensures Drifts(bestKey, nextKey, considered) && NoWorse(nextKey, key, considered + 1)
  {
    hide NoWorse, KeyPrecedes, Tied;
    ConsideringDrifts(bestKey, key, nextKey, key, considered);
    forall other ensures NoWorse(bestKey, other, considered) ==> NoWorse(nextKey, other, considered + 1) {
      ConsideringDrifts(bestKey, key, nextKey, other, considered);
    }
  }

  lemma DriftKeepsReversals(setting: Setting, route: seq<nat>, bestKey: LocalKey, nextKey: LocalKey, considered: nat,
                            start: nat, end: nat)
    requires ReversalsDone(setting, route, bestKey, considered, start, end) && Drifts(bestKey, nextKey, considered)
    ensures ReversalsDone(setting, route, nextKey, considered + 1, start, end)
  {
    hide NoWorse, KeyOf, Reversal;
    forall s, e | 0 <= s < e < |route| && (s < start || (s == start && e < end))
      ensures Bounded(setting, nextKey, Reversal(route, s, e), considered + 1)
    {
      assert Bounded(setting, bestKey, Reversal(route, s, e), considered);
    }
  }

  lemma DriftKeepsRelocations(setting: Setting, route: seq<nat>, bestKey: LocalKey, nextKey: LocalKey,
                              considered: nat, source: nat, destination: nat)
    requires RelocationsDone(setting, route, bestKey, considered, source, destination) &&
             Drifts(bestKey, nextKey, considered)
    ensures RelocationsDone(setting, route, nextKey, considered + 1, source, destination)
  {
    hide NoWorse, KeyOf, Relocation;
    forall s, d | 0 <= s < |route| && 0 <= d < |route| && (s < source || (s == source && d < destination))
      ensures Relocation(route, s, d) == route || Bounded(setting, nextKey, Relocation(route, s, d), considered + 1)
    {
      assert Relocation(route, s, d) == route || Bounded(setting, bestKey, Relocation(route, s, d), considered);
    }
  }

  /** One neighbour, with its effect on the working state. */
  method Consider(setting: Setting, route: seq<nat>, current: LocalKey, candidate: seq<nat>,
                  best: seq<nat>, bestKey: LocalKey, ghost considered: nat, cache: ScoreCache)
    returns (ok: bool, nextBest: seq<nat>, nextKey: LocalKey)
    requires cache.Coherent(setting.metric)
    requires multiset(candidate) == multiset(route) && Kept(setting, route, current, best, bestKey)
    modifies cache
    ensures cache.Coherent(setting.metric)
    ensures !ok ==> Stuck(setting, route)
    ensures ok ==> Kept(setting, route, current, nextBest, nextKey)
    ensures ok ==> Drifts(bestKey, nextKey, considered) && Bounded(setting, nextKey, candidate, considered + 1)
    ensures ok <==> KeyOf(setting, candidate).Some?
    ensures ok ==> Incumbent(nextBest, nextKey) ==
                   Considered(Incumbent(best, bestKey), candidate, KeyOf(setting, candidate).value)
  {
    hide Drifts, NoWorse, KeyOf, LexLe;
    ok, nextBest, nextKey := ConsiderNeighbour(setting, candidate, best, bestKey, cache);
    if ok {
      StepDrifts(bestKey, KeyOf(setting, candidate).value, nextKey, considered);
    }
  }

  /** All reversals of the route. */
  method ReversalPass(setting: Setting, route: seq<nat>, current: LocalKey, cache: ScoreCache)
    returns (ok: bool, best: seq<nat>, bestKey: LocalKey, ghost considered: nat)
    requires cache.Coherent(setting.metric) && KeyOf(setting, route) == Some(current) && route != []
    modifies cache
    ensures cache.Coherent(setting.metric)
    ensures !ok ==> Stuck(setting, route)
    ensures ok ==> Kept(setting, route, current, best, bestKey)
    ensures ok ==> ReversalsDone(setting, route, bestKey, considered, |route|, 0)
    ensures considered <= ReversalsBefore(|route|, |route| - 1)
    ensures BestAfter(setting, Incumbent(route, current), Reversals(route, |route| - 1)) ==
            if ok then Some(Incumbent(best, bestKey)) else None
  {
    hide Drifts, NoWorse, KeyOf, Reversal, Bounded, Stuck, ReversalsDone, Considered, Kept, Leads, BestAfter,
      Reversals, RowReversals;
    ghost var first := Incumbent(route, current);
    NothingConsidered(setting, route, current);
    best, bestKey, considered := route, current, 0;
    ReversalsStart(setting, route, bestKey);
    StartIsKept(setting, route, current);
    var start := 0;
    while start < |route| - 1
      invariant 0 <= start <= |route| - 1
      invariant cache.Coherent(setting.metric) && Kept(setting, route, current, best, bestKey)
      invariant ReversalsDone(setting, route, bestKey, considered, start, 0)
      invariant considered == ReversalsBefore(|route|, start)
      invariant Leads(setting, first, Reversals(route, start), best, bestKey)
    {
      var end := start + 1;
      ReversalsRow(setting, route, bestKey, considered, start);
      ReversalsStep(route, start);
      while end < |route|
        invariant start + 1 <= end <= |route|
        invariant cache.Coherent(setting.metric) && Kept(setting, route, current, best, bestKey)
        invariant ReversalsDone(setting, route, bestKey, considered, start, end)
        invariant considered == ReversalsBefore(|route|, start) + (end - start - 1)
        invariant Leads(setting, first, Reversals(route, start) + RowReversals(route, start, end), best, bestKey)
      {
        var candidate := Reversal(route, start, end);
        RowReversalsStep(route, start, end);
        ReversalKeepsTracks(route, start, end);
        var fine, nextBest, nextKey := Consider(setting, route, current, candidate, best, bestKey, considered, cache);
        LeadsOn(setting, first, Reversals(route, start) + RowReversals(route, start, end), best, bestKey, candidate,
                Reversals(route, start) + RowReversals(route, start, end + 1), nextBest, nextKey);
        if !fine {
          ReversalsSoFar(|route|, start, end);
          ReversalsFail(setting, route, first, start, end);
          return false, best, bestKey, considered;
        }
        DriftKeepsReversals(setting, route, bestKey, nextKey, considered, start, end);
        ReversalsCell(setting, route, nextKey, considered + 1, start, end);
        best, bestKey, considered := nextBest, nextKey, considered + 1;
        end := end + 1;
      }
      ReversalsNext(setting, route, bestKey, considered, start);
      start := start + 1;
      assert considered == ReversalsBefore(|route|, start);
    }
    ReversalsAll(setting, route, bestKey, considered);
    LeadsMeans(setting, first, Reversals(route, start), best, bestKey);
    return true, best, bestKey, considered;
  }

  lemma NothingConsidered(setting: Setting, route: seq<nat>, current: LocalKey)
    ensures Leads(setting, Incumbent(route, current), Reversals(route, 0), route, current)
  {
  }

  lemma LeadsMeans(setting: Setting, first: Incumbent, candidates: seq<seq<nat>>, best: seq<nat>, bestKey: LocalKey)
    ensures Leads(setting, first, candidates, best, bestKey) <==>
            BestAfter(setting, first, candidates) == Some(Incumbent(best, bestKey))
  {
  }

  lemma StartIsKept(setting: Setting, route: seq<nat>, current: LocalKey)
    requires KeyOf(setting, route) == Some(current)
    ensures Kept(setting, route, current, route, current)
  {
  }

  lemma Regrouped<T>(a: seq<T>, b: seq<T>, c: seq<T>, d: seq<T>)
    ensures a + (b + c) + d == a + b + (c + d)
  {
  }

  lemma ReversalsFail(setting: Setting, route: seq<nat>, first: Incumbent, start: nat, end: nat)
    requires start < end < |route|
    requires BestAfter(setting, first, Reversals(route, start) + RowReversals(route, start, end + 1)).None?
    ensures BestAfter(setting, first, Reversals(route, |route| - 1)).None?
  {
    hide BestAfter, Reversal, Reversals, RowReversals;
    var before, here := Reversals(route, start), RowReversals(route, start, end + 1);
    var row := RowReversalsPrefix(route, start, end + 1);
    var more := ReversalsPrefix(route, start + 1);
    ReversalsStep(route, start);
    Regrouped(before, here, row, more);
    BestAfterFails(setting, first, before + here, row + more);
  }

  lemma RelocationsFail(setting: Setting, route: seq<nat>, first: Incumbent, reversals: seq<seq<nat>>, source: nat,
                        destination: nat)
    requires source < |route| && destination < |route|
    requires BestAfter(setting, first, reversals + Relocations(route, source) +
                                       RowRelocations(route, source, destination + 1)).None?
    ensures BestAfter(setting, first, reversals + Relocations(route, |route|)).None?
  {
    hide BestAfter, Relocation, Relocations, RowRelocations;
    var before, here := reversals + Relocations(route, source), RowRelocations(route, source, destination + 1);
    var row := RowRelocationsPrefix(route, source, destination + 1);
    var more := RelocationsPrefix(route, source + 1);
    RelocationsStep(route, reversals, source);
    Regrouped(before, here, row, more);
    Regrouped(reversals, Relocations(route, source + 1), more, []);
    assert more + [] == more;
    assert reversals + (Relocations(route, source + 1) + more) + [] == reversals + Relocations(route, |route|);
    BestAfterFails(setting, first, before + here, row + more);
  }

  lemma {:induction false} ReversalsSoFar(n: nat, start: nat, end: nat)
    requires start < end < n
    ensures ReversalsBefore(n, start) + (end - start - 1) <= ReversalsBefore(n, n - 1)
    decreases n - start
  {
    if start + 2 < n {
      ReversalsSoFar(n, start + 1, start + 2);
    }
    assert ReversalsBefore(n, start + 1) == ReversalsBefore(n, start) + (n - (start + 1));
  }

  lemma ReversalsStart(setting: Setting, route: seq<nat>, key: LocalKey)
    ensures ReversalsDone(setting, route, key, 0, 0, 0)
  {
  }

  lemma ReversalsRow(setting: Setting, route: seq<nat>, key: LocalKey, considered: nat, start: nat)
    requires ReversalsDone(setting, route, key, considered, start, 0)
    ensures ReversalsDone(setting, route, key, considered, start, start + 1)
  {
    hide Bounded, Reversal;
  }

  lemma ReversalsCell(setting: Setting, route: seq<nat>, key: LocalKey, considered: nat, start: nat, end: nat)
    requires start < end < |route| && ReversalsDone(setting, route, key, considered, start, end)
    requires Bounded(setting, key, Reversal(route, start, end), considered)
    ensures ReversalsDone(setting, route, key, considered, start, end + 1)
  {
    hide Bounded, Reversal;
  }

  lemma ReversalsNext(setting: Setting, route: seq<nat>, key: LocalKey, considered: nat, start: nat)
    requires ReversalsDone(setting, route, key, considered, start, |route|)
    ensures ReversalsDone(setting, route, key, considered, start + 1, 0)
  {
    hide Bounded, Reversal;
  }

  lemma ReversalsAll(setting: Setting, route: seq<nat>, key: LocalKey, considered: nat)
    requires route != [] && ReversalsDone(setting, route, key, considered, |route| - 1, 0)
    ensures ReversalsDone(setting, route, key, considered, |route|, 0)
  {
    hide Bounded, Reversal;
  }

  /** All relocations that change the route, after the reversals. */
  method RelocationPass(setting: Setting, route: seq<nat>, current: LocalKey, best0: seq<nat>, bestKey0: LocalKey,
                        ghost considered0: nat, cache: ScoreCache, ghost first: Incumbent,
                        ghost reversals: seq<seq<nat>>)
    returns (ok: bool, best: seq<nat>, bestKey: LocalKey, ghost considered: nat)
    requires cache.Coherent(setting.metric) && Kept(setting, route, current, best0, bestKey0)
    requires BestAfter(setting, first, reversals) == Some(Incumbent(best0, bestKey0))
    requires ReversalsDone(setting, route, bestKey0, considered0, |route|, 0)
    modifies cache
    ensures cache.Coherent(setting.metric)
    ensures !ok ==> Stuck(setting, route)
    ensures ok ==> Kept(setting, route, current, best, bestKey)
    ensures ok ==> ReversalsDone(setting, route, bestKey, considered, |route|, 0)
    ensures ok ==> RelocationsDone(setting, route, bestKey, considered, |route|, 0)
    ensures considered <= considered0 + |route| * |route|
    ensures BestAfter(setting, first, reversals + Relocations(route, |route|)) ==
            if ok then Some(Incumbent(best, bestKey)) else None
  {
    hide Drifts, NoWorse, KeyOf, Relocation, Bounded, Stuck, ReversalsDone, RelocationsDone, Kept, Considered,
      BestAfter, Leads, Relocations, RowRelocations;
    var n := |route|;
    best, bestKey, considered := best0, bestKey0, considered0;
    RelocationsStart(setting, route, bestKey, considered);
    NothingRelocated(route, reversals);
    LeadsMeans(setting, first, reversals, best, bestKey);
    var source := 0;
    while source < n
      invariant 0 <= source <= n
      invariant cache.Coherent(setting.metric) && Kept(setting, route, current, best, bestKey)
      invariant ReversalsDone(setting, route, bestKey, considered, n, 0)
      invariant RelocationsDone(setting, route, bestKey, considered, source, 0)
      invariant considered <= considered0 + source * n
      invariant Leads(setting, first, reversals + Relocations(route, source), best, bestKey)
    {
      var destination := 0;
      ghost var done := reversals + Relocations(route, source);
      RelocationsStep(route, reversals, source);
      while destination < n
        invariant 0 <= destination <= n
        invariant cache.Coherent(setting.metric) && Kept(setting, route, current, best, bestKey)
        invariant ReversalsDone(setting, route, bestKey, considered, n, 0)
        invariant RelocationsDone(setting, route, bestKey, considered, source, destination)
        invariant considered <= considered0 + source * n + destination
        invariant Leads(setting, first, done + RowRelocations(route, source, destination), best, bestKey)
      {
        var candidate := Relocation(route, source, destination);
        RowRelocationsStep(route, done, source, destination);
        RelocationKeepsTracks(route, source, destination);
        if candidate != route {
          var fine, nextBest, nextKey := Consider(setting, route, current, candidate, best, bestKey, considered, cache);
          LeadsOn(setting, first, done + RowRelocations(route, source, destination), best, bestKey, candidate,
                  done + RowRelocations(route, source, destination + 1), nextBest, nextKey);
          if !fine {
            WithinSquare(source, destination, n);
            RelocationsFail(setting, route, first, reversals, source, destination);
            return false, best, bestKey, considered;
          }
          DriftKeepsReversals(setting, route, bestKey, nextKey, considered, n, 0);
          DriftKeepsRelocations(setting, route, bestKey, nextKey, considered, source, destination);
          best, bestKey, considered := nextBest, nextKey, considered + 1;
        }
        RelocationsCell(setting, route, bestKey, considered, source, destination);
        destination := destination + 1;
      }
      RelocationsNext(setting, route, bestKey, considered, source);
      assert source * n + n == (source + 1) * n;
      source := source + 1;
    }
    LeadsMeans(setting, first, reversals + Relocations(route, n), best, bestKey);
    return true, best, bestKey, considered;
  }

  lemma NothingRelocated(route: seq<nat>, reversals: seq<seq<nat>>)
    ensures reversals + Relocations(route, 0) == reversals
  {
  }

  lemma WithinSquare(source: nat, destination: nat, n: nat)
    requires source < n && destination <= n
    ensures source * n + destination <= n * n
  {
    assert source * n + n == (source + 1) * n <= n * n;
  }

  lemma RelocationsStart(setting: Setting, route: seq<nat>, key: LocalKey, considered: nat)
    ensures RelocationsDone(setting, route, key, considered, 0, 0)
  {
  }

  lemma RelocationsCell(setting: Setting, route: seq<nat>, key: LocalKey, considered: nat, source: nat,
                        destination: nat)
    requires source < |route| && destination < |route|
    requires RelocationsDone(setting, route, key, considered, source, destination)
    requires Relocation(route, source, destination) == route ||
             Bounded(setting, key, Relocation(route, source, destination), considered)
    ensures RelocationsDone(setting, route, key, considered, source, destination + 1)
  {
    hide Bounded, Relocation;
  }

  lemma RelocationsNext(setting: Setting, route: seq<nat>, key: LocalKey, considered: nat, source: nat)
    requires RelocationsDone(setting, route, key, considered, source, |route|)
    ensures RelocationsDone(setting, route, key, considered, source + 1, 0)
  {
    hide Bounded, Relocation;
  }

  /** No neighbour has fewer violations, and none with equal violations beats
      the score by more than one tolerance for each neighbour and one more. */
  ghost predicate LocallyOptimal(setting: Setting, route: seq<nat>) {
    && KeyOf(setting, route).Some?
    && (forall s, e | 0 <= s < e < |route| ::
          Bounded(setting, KeyOf(setting, route).value, Reversal(route, s, e), NeighbourBound(|route|) + 1))
    && (forall s, d | 0 <= s < |route| && 0 <= d < |route| ::
          Bounded(setting, KeyOf(setting, route).value, Relocation(route, s, d), NeighbourBound(|route|) + 1))
  }

  /** A pass that ends without a preceding key bounds the route it started from. */
  lemma StopBounds(current: LocalKey, best: LocalKey, other: LocalKey, considered: nat, bound: nat)
    requires best.repeatViolations <= current.repeatViolations && !KeyPrecedes(best, current)
    requires NoWorse(best, other, considered) && considered <= bound
    ensures NoWorse(current, other, bound + 1)
  {
    assert (bound + 1) as real * EPSILON == bound as real * EPSILON + EPSILON;
    assert considered as real * EPSILON <= bound as real * EPSILON;
  }

  lemma StopIsOptimal(setting: Setting, route: seq<nat>, current: LocalKey, best: seq<nat>, bestKey: LocalKey,
                      considered: nat)
    requires KeyOf(setting, route) == Some(current) && Kept(setting, route, current, best, bestKey)
    requires !KeyPrecedes(bestKey, current) && considered <= NeighbourBound(|route|)
    requires ReversalsDone(setting, route, bestKey, considered, |route|, 0)
    requires RelocationsDone(setting, route, bestKey, considered, |route|, 0)
    ensures LocallyOptimal(setting, route)
  {
    hide NoWorse, KeyOf, Relocation, Reversal, KeyPrecedes, NeighbourBound;
    var bound := NeighbourBound(|route|);
    forall s, e | 0 <= s < e < |route| ensures Bounded(setting, current, Reversal(route, s, e), bound + 1) {
      assert Bounded(setting, bestKey, Reversal(route, s, e), considered);
      StopBounds(current, bestKey, KeyOf(setting, Reversal(route, s, e)).value, considered, bound);
    }
    forall s, d | 0 <= s < |route| && 0 <= d < |route|
      ensures Bounded(setting, current, Relocation(route, s, d), bound + 1)
    {
      if Relocation(route, s, d) == route {
        SelfBounded(current, bound + 1);
      } else {
        assert Bounded(setting, bestKey, Relocation(route, s, d), considered);
        StopBounds(current, bestKey, KeyOf(setting, Relocation(route, s, d)).value, considered, bound);
      }
    }
  }

  lemma SelfBounded(key: LocalKey, considered: nat)
    ensures NoWorse(key, key, considered)
  {
    assert considered as real * EPSILON >= 0.0;
  }

  /** Tolerances that fit under a score. */
  function Steps(score: real): nat
    requires score >= 0.0
  {
    (score * 1000000000000.0).Floor
  }

  lemma PrecedingShrinks(left: LocalKey, right: LocalKey)
    requires KeyPrecedes(left, right) && left.score >= 0.0 && right.score >= 0.0
    ensures left.repeatViolations < right.repeatViolations ||
            (left.repeatViolations == right.repeatViolations && Steps(left.score) < Steps(right.score))
  {
    if left.repeatViolations == right.repeatViolations {
      assert left.score * 1000000000000.0 + 1.0 < right.score * 1000000000000.0;
    }
  }

  ghost function ViolationRank(setting: Setting, route: seq<nat>): nat {
    var key := KeyOf(setting, route);
    if key.None? then 0 else key.value.repeatViolations
  }

  ghost function ScoreRank(setting: Setting, route: seq<nat>): nat {
    var key := KeyOf(setting, route);
    if key.None? || key.value.score < 0.0 then 0 else Steps(key.value.score)
  }

  /** The winner of one pass over the neighbourhood. */
  ghost function PassWinner(setting: Setting, route: seq<nat>): Option<Incumbent>
    requires KeyOf(setting, route).Some?
  {
    if route == [] then Some(Incumbent(route, KeyOf(setting, route).value))
    else BestAfter(setting, Incumbent(route, KeyOf(setting, route).value), Neighbourhood(route))
  }

  lemma {:induction false} BestAfterScored(setting: Setting, first: Incumbent, candidates: seq<seq<nat>>)
    requires KeyOf(setting, first.route) == Some(first.key) && BestAfter(setting, first, candidates).Some?
    ensures var best := BestAfter(setting, first, candidates).value; KeyOf(setting, best.route) == Some(best.key)
  {
    hide KeyOf, KeyPrecedes, Tied, LexBefore;
    if candidates != [] {
      BestAfterScored(setting, first, candidates[..|candidates| - 1]);
    }
  }

  /** A pass whose winner precedes the route brings the measure down. */
  lemma WinnerShrinks(setting: Setting, route: seq<nat>)
    requires KeyOf(setting, route).Some? && PassWinner(setting, route).Some?
    requires KeyPrecedes(PassWinner(setting, route).value.key, KeyOf(setting, route).value)
    ensures var best := PassWinner(setting, route).value;
            && KeyOf(setting, best.route) == Some(best.key)
            && (ViolationRank(setting, best.route) < ViolationRank(setting, route) ||
                (ViolationRank(setting, best.route) == ViolationRank(setting, route) &&
                 ScoreRank(setting, best.route) < ScoreRank(setting, route)))
  {
    hide KeyOf, BestAfter, Neighbourhood, Steps;
    var first := Incumbent(route, KeyOf(setting, route).value);
    if route != [] {
      BestAfterScored(setting, first, Neighbourhood(route));
    }
    var best := PassWinner(setting, route).value;
    KeyNonNegative(setting, route);
    KeyNonNegative(setting, best.route);
    PrecedingShrinks(best.key, first.key);
  }

  /** Pass after pass, while the winner precedes the route it started from. */
  ghost function Improved(setting: Setting, route: seq<nat>): Option<seq<nat>>
    decreases ViolationRank(setting, route), ScoreRank(setting, route)
  {
    hide KeyOf, PassWinner, ViolationRank, ScoreRank, KeyPrecedes;
    if KeyOf(setting, route).None? || PassWinner(setting, route).None? then None
    else
      var best := PassWinner(setting, route).value;
      if KeyPrecedes(best.key, KeyOf(setting, route).value) then
        WinnerShrinks(setting, route);
        Improved(setting, best.route)
      else Some(route)
  }

  lemma NeverBeforeItself(key: LocalKey)
    ensures !KeyPrecedes(key, key)
  {
  }

  lemma PrecedesTransitive(a: LocalKey, b: LocalKey, c: LocalKey)
    requires KeyPrecedes(a, b) && KeyPrecedes(b, c)
    ensures KeyPrecedes(a, c)
  {
  }

  /** The search ends where it started, or with fewer violations, or with as
      many and a score better by more than the tolerance. */
  lemma {:induction false} ImprovedPrecedes(setting: Setting, route: seq<nat>)
    requires Improved(setting, route).Some?
    ensures var end := Improved(setting, route).value;
            && KeyOf(setting, end).Some? && KeyOf(setting, route).Some?
            && (end == route || KeyPrecedes(KeyOf(setting, end).value, KeyOf(setting, route).value))
    decreases ViolationRank(setting, route), ScoreRank(setting, route)
  {
    hide KeyOf, PassWinner, ViolationRank, ScoreRank, KeyPrecedes;
    var best := PassWinner(setting, route).value;
    if KeyPrecedes(best.key, KeyOf(setting, route).value) {
      WinnerShrinks(setting, route);
      ImprovedPrecedes(setting, best.route);
      var end := Improved(setting, route).value;
      if end != best.route {
        PrecedesTransitive(KeyOf(setting, end).value, best.key, KeyOf(setting, route).value);
      }
    }
  }

  /** Fewer violations, or as many and a score that is better by more than the tolerance. */
  ghost predicate Better(setting: Setting, route: seq<nat>, other: seq<nat>)
    requires MetricsOf(setting, route).Some? && MetricsOf(setting, other).Some?
  {
    var mine, theirs := MetricsOf(setting, route).value, MetricsOf(setting, other).value;
    var weight := if setting.arc.Some? then 0.12 else 0.0;
    || |Violations(setting.policy, route)| < |Violations(setting.policy, other)|
    || (|Violations(setting.policy, route)| == |Violations(setting.policy, other)| &&
        mine.objective + weight * mine.arcError + 0.000000000001 < theirs.objective + weight * theirs.arcError)
  }

  lemma PrecedesIsBetter(setting: Setting, route: seq<nat>, other: seq<nat>)
    requires KeyOf(setting, route).Some? && KeyOf(setting, other).Some?
    ensures MetricsOf(setting, route).Some? && MetricsOf(setting, other).Some?
    ensures KeyPrecedes(KeyOf(setting, route).value, KeyOf(setting, other).value) <==> Better(setting, route, other)
  {
    hide Violations, LegsUpTo, ArcError;
  }

  lemma ImprovedIsBetter(setting: Setting, start: seq<nat>)
    ensures Improved(setting, start).Some? ==>
              var end := Improved(setting, start).value;
              && MetricsOf(setting, start).Some? && MetricsOf(setting, end).Some?
              && (end == start || Better(setting, end, start))
  {
    hide KeyOf, KeyPrecedes, MetricsOf, Better;
    if Improved(setting, start).Some? {
      ImprovedPrecedes(setting, start);
      PrecedesIsBetter(setting, Improved(setting, start).value, start);
    }
  }

  lemma ImprovedStep(setting: Setting, route: seq<nat>)
    requires KeyOf(setting, route).Some?
    ensures PassWinner(setting, route).None? ==> Improved(setting, route) == None
    ensures PassWinner(setting, route).Some? ==>
              var best := PassWinner(setting, route).value;
              Improved(setting, route) ==
              if KeyPrecedes(best.key, KeyOf(setting, route).value) then Improved(setting, best.route) else Some(route)
  {
    hide KeyOf, KeyPrecedes, PassWinner;
  }

  /** Best-improvement search.  It always ends, keeps the tracks, and returns a
      route that is locally optimal up to accumulated ties; it fails only when
      some arrangement of the tracks cannot be scored. */
  method ImproveRoute(setting: Setting, start: seq<nat>, cache: ScoreCache) returns (result: Option<seq<nat>>)
    requires cache.Coherent(setting.metric)
    modifies cache
    ensures cache.Coherent(setting.metric)
    ensures result.None? ==> Stuck(setting, start)
    ensures result.Some? ==> multiset(result.value) == multiset(start)
    ensures result.Some? ==> LocallyOptimal(setting, result.value)
    ensures result.Some? ==> ViolationRank(setting, result.value) <= ViolationRank(setting, start)
    ensures result == Improved(setting, start)
    ensures result.Some? ==>
              && MetricsOf(setting, start).Some? && MetricsOf(setting, result.value).Some?
              && (result.value == start || Better(setting, result.value, start))
  {
    hide NoWorse, LocallyOptimal, ReversalsDone, RelocationsDone, Violations, LegsUpTo, Steps, NeighbourBound,
      KeyPrecedes, BestAfter, Better, Reversals, Relocations;
    ImprovedIsBetter(setting, start);
    var route := start;
    while true
      invariant cache.Coherent(setting.metric)
      invariant multiset(route) == multiset(start)
      invariant ViolationRank(setting, route) <= ViolationRank(setting, start)
      invariant Improved(setting, start) == Improved(setting, route)
      decreases ViolationRank(setting, route), ScoreRank(setting, route)
    {
      var metrics := RouteMetrics(setting, route, cache);
      if metrics.None? {
        assert KeyOf(setting, route).None?;
        return None;
      }
      var violations := RepeatViolations(setting.policy, route);
      var current := LocalKey(|violations|, SearchScore(metrics.value, setting.arc.Some?));
      ImprovedStep(setting, route);
      if route == [] {
        NothingToImprove(setting, route);
        NeverBeforeItself(current);
        return Some(route);
      }
      var ok, best, bestKey;
      ghost var considered;
      ok, best, bestKey, considered := ReversalPass(setting, route, current, cache);
      if !ok {
        BestAfterFails(setting, Incumbent(route, current), Reversals(route, |route| - 1), Relocations(route, |route|));
        StuckElsewhere(setting, route, start);
        return None;
      }
      ghost var reversals := considered;
      ok, best, bestKey, considered := RelocationPass(setting, route, current, best, bestKey, considered, cache,
                                                      Incumbent(route, current), Reversals(route, |route| - 1));
      if !ok {
        StuckElsewhere(setting, route, start);
        return None;
      }
      if !KeyPrecedes(bestKey, current) {
        BoundCounts(|route|, reversals, considered);
        StopIsOptimal(setting, route, current, best, bestKey, considered);
        return Some(route);
      }
      KeyNonNegative(setting, route);
      KeyNonNegative(setting, best);
      PrecedingShrinks(bestKey, current);
      route := best;
    }
  }

  lemma BoundCounts(n: nat, reversals: nat, considered: nat)
    requires n > 0 && reversals <= ReversalsBefore(n, n - 1) && considered <= reversals + n * n
    ensures considered <= NeighbourBound(n)
  {
  }

  lemma StuckElsewhere(setting: Setting, route: seq<nat>, start: seq<nat>)
    requires Stuck(setting, route) && multiset(route) == multiset(start)
    ensures Stuck(setting, start)
  {
    hide KeyOf;
  }

  lemma NothingToImprove(setting: Setting, route: seq<nat>)
    requires route == []
    ensures LocallyOptimal(setting, route)
  {
  }

  // ----- what local optimality means for the route -----

  /** `other` has no fewer violations, and with as many no score that is better
      by more than one tolerance for each neighbour of the route and one more. */
  ghost predicate NotBeaten(setting: Setting, route: seq<nat>, other: seq<nat>) {
    var n, mine, theirs := |route|, MetricsOf(setting, route), MetricsOf(setting, other);
    && mine.Some? && theirs.Some?
    && |Violations(setting.policy, route)| <= |Violations(setting.policy, other)|
    && (|Violations(setting.policy, route)| == |Violations(setting.policy, other)| ==>
          mine.value.objective + (if setting.arc.Some? then 0.12 * mine.value.arcError else 0.0) <=
          theirs.value.objective + (if setting.arc.Some? then 0.12 * theirs.value.arcError else 0.0)
          + (n * (n - 1) / 2 + n * n + 1) as real * 0.000000000001)
  }

  lemma BoundedIsNotBeaten(setting: Setting, route: seq<nat>, other: seq<nat>)
    requires KeyOf(setting, route).Some? && route != []
    requires Bounded(setting, KeyOf(setting, route).value, other, NeighbourBound(|route|) + 1)
    ensures NotBeaten(setting, route, other)
  {
    hide Violations, LegsUpTo, ArcError, ReversalsBefore;
    var n := |route|;
    ReversalsInAll(n, n - 1);
    assert (n - 1) * (2 * n - (n - 1) - 1) == n * (n - 1);
  }

  lemma {:induction false} ReversedAt(xs: seq<nat>, k: nat)
    requires k < |xs|
    ensures Reversed(xs)[k] == xs[|xs| - 1 - k]
  {
    if k < |xs| - 1 {
      ReversedAt(xs[1..], k);
    }
  }

  /** Turning a stretch of at least two tracks around does not beat the result. */
  lemma NoReversalBeats(setting: Setting, front: seq<nat>, xs: seq<nat>, turned: seq<nat>, back: seq<nat>)
    requires LocallyOptimal(setting, front + xs + back) && |xs| >= 2
    requires |turned| == |xs| && forall i | 0 <= i < |xs| :: turned[i] == xs[|xs| - 1 - i]
    ensures NotBeaten(setting, front + xs + back, front + turned + back)
  {
    hide NotBeaten, Bounded, KeyOf, Reversed;
    var route, start, end := front + xs + back, |front|, |front| + |xs| - 1;
    forall i | 0 <= i < |xs| ensures Reversed(xs)[i] == turned[i] {
      ReversedAt(xs, i);
    }
    assert Reversed(xs) == turned;
    assert route[..start] == front && route[start..end + 1] == xs && route[end + 1..] == back;
    assert Reversal(route, start, end) == front + turned + back;
    BoundedIsNotBeaten(setting, route, front + turned + back);
  }

  /** Nor does moving one track later or earlier. */
  lemma NoRelocationBeats(setting: Setting, front: seq<nat>, x: nat, xs: seq<nat>, back: seq<nat>)
    ensures LocallyOptimal(setting, front + [x] + xs + back) ==>
              NotBeaten(setting, front + [x] + xs + back, front + xs + [x] + back)
    ensures LocallyOptimal(setting, front + xs + [x] + back) ==>
              NotBeaten(setting, front + xs + [x] + back, front + [x] + xs + back)
  {
    hide NotBeaten, Bounded, KeyOf;
    var early, late := front + [x] + xs + back, front + xs + [x] + back;
    var source, destination := |front|, |front| + |xs|;
    assert Without(early, source) == front + xs + back == Without(late, destination);
    assert (front + xs + back)[..destination] == front + xs && (front + xs + back)[..source] == front;
    assert Relocation(early, source, destination) == late;
    assert Relocation(late, destination, source) == early;
    if LocallyOptimal(setting, early) {
      BoundedIsNotBeaten(setting, early, late);
    }
    if LocallyOptimal(setting, late) {
      BoundedIsNotBeaten(setting, late, early);
    }
  }
}
