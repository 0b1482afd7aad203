/** The repeat-capacity filter: a necessary condition for any repeat-safe
    ordering, and the exact circumstances in which it asks for too much. */
module Capacity {
  import opened Wrappers
  import opened Repeats

  /** The artist keys a track is counted under. */
  function CapacityKeys(t: Track): seq<string> {
    if t.artistRepeatKeys != [] then t.artistRepeatKeys
    else if t.artistKey == "" || t.artistKey == "various artists" then []
    else [t.artistKey]
  }

  function CeilDiv(n: nat, d: nat): nat
    requires d > 0
  {
    (n + d - 1) / d
  }

  /** None stands for the unlimited capacity of a window that is off. */
  function CapacityFor(total: nat, window: nat): Option<nat> {
    if window == 0 then None else Some(CeilDiv(total, window + 1))
  }

  predicate Fits(count: nat, capacity: Option<nat>) {
    capacity.None? || count <= capacity.value
  }

  /** Total weight over a membership. */
  function Tally(members: seq<nat>, weight: nat -> nat): nat {
    if members == [] then 0
    else
      var n := |members| - 1;
      Tally(members[..n], weight) + weight(members[n])
  }

  /** How often a track is counted under an artist key. */
  function ArtistWeight(p: Policy, key: string): nat -> nat {
    track => multiset(CapacityKeys(TrackAt(p, track)))[key]
  }

  function AlbumWeight(p: Policy, key: string): nat -> nat {
    track => if TrackAt(p, track).albumKey == key then 1 else 0
  }

  /** How often a key is counted over a membership. */
  function ArtistCount(p: Policy, members: seq<nat>, key: string): nat {
    Tally(members, ArtistWeight(p, key))
  }

  function AlbumCount(p: Policy, members: seq<nat>, key: string): nat {
    Tally(members, AlbumWeight(p, key))
  }

  // ----- the filter -----

  function Bump(counts: map<string, nat>, key: string): map<string, nat> {
    counts[key := 1 + if key in counts then counts[key] else 0]
  }

  function CountIn(counts: map<string, nat>, key: string): nat {
    if key in counts then counts[key] else 0
  }

  lemma BumpCounts(counts: map<string, nat>, bumped: string)
    ensures forall key :: CountIn(Bump(counts, bumped), key) == CountIn(counts, key) + if bumped == key then 1 else 0
  {
  }

  method BumpAll(counts: map<string, nat>, keys: seq<string>) returns (bumped: map<string, nat>)
    ensures forall key :: CountIn(bumped, key) == CountIn(counts, key) + multiset(keys)[key]
  {
    bumped := counts;
    for i := 0 to |keys|
      invariant forall key :: CountIn(bumped, key) == CountIn(counts, key) + multiset(keys[..i])[key]
    {
      assert keys[..i + 1] == keys[..i] + [keys[i]];
      bumped := Bump(bumped, keys[i]);
    }
    assert keys[..|keys|] == keys;
  }

  lemma TallyStep(members: seq<nat>, weight: nat -> nat, k: nat)
    requires k < |members|
    ensures Tally(members[..k + 1], weight) == Tally(members[..k], weight) + weight(members[k])
  {
    assert members[..k + 1][..k] == members[..k];
  }

  method CountKeys(p: Policy, members: seq<nat>) returns (artists: map<string, nat>, albums: map<string, nat>)
    ensures forall key :: CountIn(artists, key) == ArtistCount(p, members, key)
    ensures forall key :: CountIn(albums, key) == AlbumCount(p, members, key)
  {
    hide CapacityKeys, Tally;
    artists, albums := map[], map[];
    NothingCounted(p);
    for k := 0 to |members|
      invariant forall key :: CountIn(artists, key) == ArtistCount(p, members[..k], key)
      invariant forall key :: CountIn(albums, key) == AlbumCount(p, members[..k], key)
    {
      var track := TrackAt(p, members[k]);
      forall key
        ensures ArtistCount(p, members[..k + 1], key) ==
                ArtistCount(p, members[..k], key) + multiset(CapacityKeys(track))[key]
        ensures AlbumCount(p, members[..k + 1], key) ==
                AlbumCount(p, members[..k], key) + if track.albumKey == key then 1 else 0
      {
        TallyStep(members, ArtistWeight(p, key), k);
        TallyStep(members, AlbumWeight(p, key), k);
      }
      artists := BumpAll(artists, CapacityKeys(track));
      BumpCounts(albums, track.albumKey);
      albums := Bump(albums, track.albumKey);
    }
    assert members[..|members|] == members;
  }

  lemma NothingCounted(p: Policy)
    ensures forall key :: ArtistCount(p, [], key) == 0 && AlbumCount(p, [], key) == 0
  {
  }

  /** Every count fits the capacity of a route with `total` tracks. */
  ghost predicate FitsAll(p: Policy, members: seq<nat>, total: nat) {
    && (forall key :: Fits(ArtistCount(p, members, key), CapacityFor(total, p.artistWindow)))
    && (forall key :: Fits(AlbumCount(p, members, key), CapacityFor(total, p.albumWindow)))
  }

  ghost predicate WithinCapacity(p: Policy, members: seq<nat>) {
    FitsAll(p, members, |members|)
  }

  /** Accepts a membership before it is routed. */
  method AcceptMembership(p: Policy, source: seq<nat>, additions: seq<nat>) returns (accepted: bool)
    ensures accepted <==> WithinCapacity(p, source + additions)
  {
    var members := source + additions;
    var artists, albums := CountKeys(p, members);
    accepted := CheckCounts(p, members, artists, albums, |members|);
  }

  // ----- spacing forces the capacity -----

  function CountTrue(flags: seq<bool>): nat {
    if flags == [] then 0 else CountTrue(flags[..|flags| - 1]) + if flags[|flags| - 1] then 1 else 0
  }

  ghost predicate Spaced(flags: seq<bool>, window: nat) {
    forall i, j | 0 <= i < j < |flags| && flags[i] && flags[j] :: j - i > window
  }

  /** With `c` flags so far the last of them is at least (c - 1) strides in. */
  lemma {:induction false} LastFlag(flags: seq<bool>, window: nat) returns (last: nat)
    requires Spaced(flags, window) && CountTrue(flags) > 0
    ensures last < |flags| && flags[last]
    ensures (CountTrue(flags) - 1) * (window + 1) <= last
    ensures forall j | last < j < |flags| :: !flags[j]
  {
    var n := |flags| - 1;
    var shorter := flags[..n];
    if flags[n] {
      last := n;
      if CountTrue(shorter) > 0 {
        var before := LastFlag(shorter, window);
        assert flags[before] && flags[n];
        var c := CountTrue(shorter);
        assert c * (window + 1) == (c - 1) * (window + 1) + window + 1;
      }
    } else {
      last := LastFlag(shorter, window);
      assert flags[last] == shorter[last];
    }
  }

  /** Spaced flags never exceed the capacity. */
  lemma SpacedFits(flags: seq<bool>, window: nat)
    requires Spaced(flags, window)
    ensures CountTrue(flags) <= CeilDiv(|flags|, window + 1)
  {
    if CountTrue(flags) > 0 {
      var last := LastFlag(flags, window);
      CeilCovers(CountTrue(flags), |flags|, window + 1);
    }
  }

  /** One mark in every stride, from the first place on. */
  function Marks(n: nat, stride: nat): (flags: seq<bool>)
    requires stride > 0
    ensures |flags| == n
  {
    seq(n, i requires 0 <= i < n => i % stride == 0)
  }

  lemma {:induction false} MarksCount(n: nat, stride: nat)
    requires stride > 0
    ensures CountTrue(Marks(n, stride)) == CeilDiv(n, stride)
  {
    if n == 0 {
      SmallQuotient(stride - 1, stride);
    } else {
      MarksCount(n - 1, stride);
      assert Marks(n, stride)[..n - 1] == Marks(n - 1, stride);
      CeilStep(n, stride);
    }
  }

  lemma SmallQuotient(n: nat, stride: nat)
    requires n < stride
    ensures n / stride == 0
  {
  }

  lemma CeilStep(n: nat, stride: nat)
    requires n > 0 && stride > 0
    ensures CeilDiv(n, stride) == CeilDiv(n - 1, stride) + if (n - 1) % stride == 0 then 1 else 0
  {
    var q, r := (n - 1) / stride, (n - 1) % stride;
    assert n - 1 == q * stride + r;
    assert n + stride - 1 == (q + 1) * stride + r;
    Quotient(q + 1, r, stride);
    if r == 0 {
      assert n - 1 + stride - 1 == q * stride + (stride - 1);
      Quotient(q, stride - 1, stride);
    } else {
      assert n - 1 + stride - 1 == (q + 1) * stride + (r - 1);
      Quotient(q + 1, r - 1, stride);
    }
  }

  lemma Quotient(q: nat, r: nat, stride: nat)
    requires r < stride
    ensures (q * stride + r) / stride == q
  {
    var total := q * stride + r;
    var d := total / stride;
    assert d * stride <= total < (d + 1) * stride;
    MulOrder(d + 1, q, stride);
    MulOrder(q + 1, d, stride);
  }

  lemma {:induction false} MultiplesApart(i: nat, j: nat, stride: nat)
    requires stride > 0 && i < j && i % stride == 0 && j % stride == 0
    ensures j - i >= stride
  {
    var a, b := i / stride, j / stride;
    assert i == a * stride && j == b * stride;
    MulOrder(b, a, stride);
    MulOrder(a + 1, b, stride);
  }

  /** The capacity is reached: nothing smaller would be a necessary condition. */
  lemma CapacityIsReached(n: nat, window: nat)
    ensures Spaced(Marks(n, window + 1), window)
    ensures CountTrue(Marks(n, window + 1)) == CeilDiv(n, window + 1)
  {
    MarksCount(n, window + 1);
    var flags := Marks(n, window + 1);
    forall i, j | 0 <= i < j < |flags| && flags[i] && flags[j] ensures j - i > window {
      MultiplesApart(i, j, window + 1);
    }
  }

  lemma CeilCovers(count: nat, total: nat, stride: nat)
    requires count > 0 && stride > 0 && (count - 1) * stride < total
    ensures count <= CeilDiv(total, stride)
  {
    assert count * stride == (count - 1) * stride + stride <= total + stride - 1;
    DivideBound(count, total + stride - 1, stride);
  }

  lemma DivideBound(count: nat, total: nat, stride: nat)
    requires stride > 0 && count * stride <= total
    ensures count <= total / stride
  {
    var q := total / stride;
    assert total < (q + 1) * stride;
    MulOrder(q + 1, count, stride);
  }

  lemma MulOrder(a: nat, b: nat, stride: nat)
    ensures a <= b ==> a * stride <= b * stride
  {
  }

  // ----- orderings -----

  /** An arrangement of the members that keeps the artist and album windows. */
  ghost predicate CleanOrdering(p: Policy, members: seq<nat>, route: seq<nat>) {
    multiset(route) == multiset(members) && CleanRoute(p, route)
  }

  function ArtistFlags(p: Policy, route: seq<nat>, key: string): seq<bool> {
    seq(|route|, i requires 0 <= i < |route| => key in CapacityKeys(TrackAt(p, route[i])))
  }

  function AlbumFlags(p: Policy, route: seq<nat>, key: string): seq<bool> {
    seq(|route|, i requires 0 <= i < |route| => TrackAt(p, route[i]).albumKey == key)
  }

  /** When every member weighs 0 or 1 the tally counts the flagged members. */
  lemma {:induction false} TallyFlags(route: seq<nat>, weight: nat -> nat, flags: seq<bool>)
    requires |flags| == |route|
    requires forall i | 0 <= i < |route| :: weight(route[i]) == if flags[i] then 1 else 0
    ensures Tally(route, weight) == CountTrue(flags)
  {
    if route != [] {
      var n := |route| - 1;
      TallyFlags(route[..n], weight, flags[..n]);
    }
  }

  /** A key that the filter counts although the repeat test would not: twice in
      one track, or in one track with repeat keys and one without. */
  ghost predicate Overcounted(p: Policy, members: seq<nat>, key: string) {
    || (exists a :: a in members && multiset(CapacityKeys(TrackAt(p, a)))[key] > 1)
    || (exists a, b :: a in members && b in members &&
          key in CapacityKeys(TrackAt(p, a)) && key in CapacityKeys(TrackAt(p, b)) &&
          TrackAt(p, a).artistRepeatKeys != [] && TrackAt(p, b).artistRepeatKeys == [])
  }

  /** Two tracks counted under a key that is not overcounted do repeat. */
  lemma CountedTracksRepeat(p: Policy, members: seq<nat>, key: string, a: nat, b: nat)
    requires a in members && b in members && !Overcounted(p, members, key)
    requires key in CapacityKeys(TrackAt(p, a)) && key in CapacityKeys(TrackAt(p, b))
    ensures ArtistsRepeat(TrackAt(p, a), TrackAt(p, b))
  {
    SharesKeyMeaning(TrackAt(p, a).artistRepeatKeys, TrackAt(p, b).artistRepeatKeys);
  }

  lemma SameMembers(members: seq<nat>, route: seq<nat>)
    requires multiset(route) == multiset(members)
    ensures |route| == |members| && forall x :: x in route <==> x in members
  {
    assert |multiset(route)| == |route| && |multiset(members)| == |members|;
    forall x ensures x in route <==> x in members {
      assert x in route <==> x in multiset(route);
      assert x in members <==> x in multiset(members);
    }
  }

  lemma RemoveOne(route: seq<nat>, k: nat)
    requires k < |route|
    ensures multiset(route[..k] + route[k + 1..]) == multiset(route) - multiset{route[k]}
  {
    assert route == route[..k] + [route[k]] + route[k + 1..];
  }

  lemma {:induction false} TallySkipsOne(route: seq<nat>, weight: nat -> nat, k: nat)
    requires k < |route|
    ensures Tally(route, weight) == Tally(route[..k] + route[k + 1..], weight) + weight(route[k])
  {
    var n := |route| - 1;
    var rest := route[..k] + route[k + 1..];
    if k == n {
      assert rest == route[..n];
    } else {
      TallySkipsOne(route[..n], weight, k);
      assert rest[..n - 1] == route[..n][..k] + route[..n][k + 1..];
      assert rest[n - 1] == route[n];
    }
  }

  /** A tally depends on the membership, not on its order. */
  lemma {:induction false} TallyIgnoresOrder(members: seq<nat>, route: seq<nat>, weight: nat -> nat)
    requires multiset(route) == multiset(members)
    ensures Tally(route, weight) == Tally(members, weight)
  {
    SameMembers(members, route);
    if members != [] {
      var n := |members| - 1;
      var x := members[n];
      assert x in route;
      var k :| 0 <= k < |route| && route[k] == x;
      RemoveOne(route, k);
      RemoveOne(members, n);
      assert members[..n] + members[n + 1..] == members[..n];
      TallySkipsOne(route, weight, k);
      TallyIgnoresOrder(members[..n], route[..k] + route[k + 1..], weight);
    }
  }

  lemma AlbumFits(p: Policy, members: seq<nat>, route: seq<nat>, key: string)
    requires CleanOrdering(p, members, route) && key != ""
    ensures Fits(AlbumCount(p, members, key), CapacityFor(|members|, p.albumWindow))
  {
    hide ArtistsRepeat;
    if p.albumWindow > 0 {
      var flags := AlbumFlags(p, route, key);
      SameMembers(members, route);
      TallyIgnoresOrder(members, route, AlbumWeight(p, key));
      TallyFlags(route, AlbumWeight(p, key), flags);
      forall i, j | 0 <= i < j < |flags| && flags[i] && flags[j] ensures j - i > p.albumWindow {
        assert !KeysTooClose(p, route[i], route[j], j - i);
      }
      SpacedFits(flags, p.albumWindow);
    }
  }

  lemma ArtistFlagsSpaced(p: Policy, members: seq<nat>, route: seq<nat>, key: string)
    requires CleanOrdering(p, members, route) && !Overcounted(p, members, key) && p.artistWindow > 0
    ensures Spaced(ArtistFlags(p, route, key), p.artistWindow)
  {
    hide ArtistsRepeat, AlbumsRepeat, Overcounted, CapacityKeys;
    SameMembers(members, route);
    var flags := ArtistFlags(p, route, key);
    forall i, j | 0 <= i < j < |flags| && flags[i] && flags[j] ensures j - i > p.artistWindow {
      assert route[i] in members && route[j] in members;
      CountedTracksRepeat(p, members, key, route[i], route[j]);
      assert !KeysTooClose(p, route[i], route[j], j - i);
    }
  }

  lemma ArtistWeightIsFlag(p: Policy, members: seq<nat>, route: seq<nat>, key: string)
    requires multiset(route) == multiset(members) && !Overcounted(p, members, key)
    ensures forall i | 0 <= i < |route| ::
              ArtistWeight(p, key)(route[i]) == if ArtistFlags(p, route, key)[i] then 1 else 0
  {
    hide CapacityKeys;
    SameMembers(members, route);
    forall i | 0 <= i < |route|
      ensures ArtistWeight(p, key)(route[i]) == if ArtistFlags(p, route, key)[i] then 1 else 0
    {
      assert route[i] in members;
      var keys := CapacityKeys(TrackAt(p, route[i]));
      assert multiset(keys)[key] <= 1;
      assert key in keys <==> key in multiset(keys);
    }
  }

  lemma ArtistFits(p: Policy, members: seq<nat>, route: seq<nat>, key: string)
    requires CleanOrdering(p, members, route) && !Overcounted(p, members, key)
    ensures Fits(ArtistCount(p, members, key), CapacityFor(|members|, p.artistWindow))
  {
    hide KeysTooClose, Overcounted, ArtistWeight, CapacityKeys;
    if p.artistWindow > 0 {
      var flags := ArtistFlags(p, route, key);
      SameMembers(members, route);
      TallyIgnoresOrder(members, route, ArtistWeight(p, key));
      ArtistWeightIsFlag(p, members, route, key);
      TallyFlags(route, ArtistWeight(p, key), flags);
      ArtistFlagsSpaced(p, members, route, key);
      SpacedFits(flags, p.artistWindow);
    }
  }

  /** For a membership that can be ordered cleanly the filter says yes exactly
      when the keys it should not have counted stay within capacity. */
  lemma FilterOnRoutable(p: Policy, members: seq<nat>, route: seq<nat>)
    requires CleanOrdering(p, members, route)
    ensures WithinCapacity(p, members) <==>
            && Fits(AlbumCount(p, members, ""), CapacityFor(|members|, p.albumWindow))
            && forall key | Overcounted(p, members, key) ::
                 Fits(ArtistCount(p, members, key), CapacityFor(|members|, p.artistWindow))
  {
    hide Fits, ArtistCount, AlbumCount, CapacityFor, Overcounted, CleanOrdering;
    forall key ensures key != "" ==> Fits(AlbumCount(p, members, key), CapacityFor(|members|, p.albumWindow)) {
      if key != "" {
        AlbumFits(p, members, route, key);
      }
    }
    forall key
      ensures !Overcounted(p, members, key) ==>
                Fits(ArtistCount(p, members, key), CapacityFor(|members|, p.artistWindow))
    {
      if !Overcounted(p, members, key) {
        ArtistFits(p, members, route, key);
      }
    }
  }

  /** Libraries on which the filter is a necessary condition: album keys are
      present, and artist keys are either carried, once each, by all or by none. */
  ghost predicate UniformKeys(p: Policy, members: seq<nat>) {
    && (forall a | a in members :: TrackAt(p, a).albumKey != "")
    && ((forall a | a in members :: TrackAt(p, a).artistRepeatKeys == []) ||
        (forall a | a in members ::
           TrackAt(p, a).artistRepeatKeys != [] &&
           forall key :: multiset(TrackAt(p, a).artistRepeatKeys)[key] <= 1))
  }

  lemma {:induction false} NoEmptyAlbum(p: Policy, members: seq<nat>)
    requires forall a | a in members :: TrackAt(p, a).albumKey != ""
    ensures AlbumCount(p, members, "") == 0
  {
    if members != [] {
      var n := |members| - 1;
      assert members[n] in members;
      NoEmptyAlbum(p, members[..n]);
    }
  }

  /** The filter rejects no routable membership of a uniform library. */
  lemma FilterIsNecessary(p: Policy, members: seq<nat>, route: seq<nat>)
    requires CleanOrdering(p, members, route) && UniformKeys(p, members)
    ensures WithinCapacity(p, members)
  {
    hide CleanOrdering, WithinCapacity, ArtistCount, AlbumCount;
    NoEmptyAlbum(p, members);
    FilterOnRoutable(p, members, route);
    forall key ensures !Overcounted(p, members, key) {
      if forall a | a in members :: TrackAt(p, a).artistRepeatKeys == [] {
        forall a | a in members ensures multiset(CapacityKeys(TrackAt(p, a)))[key] <= 1 {
        }
      }
    }
  }

  // ----- where the filter asks for too much -----

  /** Two tracks without album, in any order clean, are turned away. */
  lemma EmptyAlbumsAreCounted()
    ensures var p := Policy([Track("a", [], ""), Track("b", [], "")], 0, 1, 0);
            CleanOrdering(p, [0, 1], [0, 1]) && !WithinCapacity(p, [0, 1])
  {
    var p := Policy([Track("a", [], ""), Track("b", [], "")], 0, 1, 0);
    assert [0, 1][..1] == [0] && [0][..0] == [];
    assert AlbumCount(p, [0], "") == 1;
    assert AlbumCount(p, [0, 1], "") == 2;
    assert CapacityFor(2, 1) == Some(1);
    assert !Fits(AlbumCount(p, [0, 1], ""), CapacityFor(|[0, 1]|, p.albumWindow));
  }

  /** One track that names a key twice is turned away on its own. */
  lemma RepeatedKeysAreCounted()
    ensures var p := Policy([Track("", ["k", "k"], "x")], 1, 0, 0);
            CleanOrdering(p, [0], [0]) && !WithinCapacity(p, [0])
  {
    var p := Policy([Track("", ["k", "k"], "x")], 1, 0, 0);
    assert [0][..0] == [];
    assert multiset(CapacityKeys(TrackAt(p, 0)))["k"] == 2;
    assert ArtistCount(p, [0], "k") == 2;
    assert CapacityFor(1, 1) == Some(1);
    assert !Fits(ArtistCount(p, [0], "k"), CapacityFor(|[0]|, p.artistWindow));
  }

  /** A track with repeat keys and one without share no identity, yet count together. */
  lemma MixedKeysAreCounted()
    ensures var p := Policy([Track("a", ["k"], "x"), Track("k", [], "y")], 1, 0, 0);
            CleanOrdering(p, [0, 1], [0, 1]) && !WithinCapacity(p, [0, 1])
  {
    var p := Policy([Track("a", ["k"], "x"), Track("k", [], "y")], 1, 0, 0);
    assert [0, 1][..1] == [0] && [0][..0] == [];
    assert ArtistCount(p, [0], "k") == 1;
    assert ArtistCount(p, [0, 1], "k") == 2;
    assert CapacityFor(2, 1) == Some(1);
    assert !Fits(ArtistCount(p, [0, 1], "k"), CapacityFor(|[0, 1]|, p.artistWindow));
  }

  // ----- greedy membership selection -----

  datatype Selection = SourceOverCapacity | TooFew(found: nat) | Selected(additions: seq<nat>)

  predicate Full(count: nat, capacity: Option<nat>) {
    capacity.Some? && count >= capacity.value
  }

  /** Some key of the candidate has no room left beside these members. */
  predicate Blocked(p: Policy, members: seq<nat>, total: nat, candidate: nat) {
    var track := TrackAt(p, candidate);
    || (exists key | key in CapacityKeys(track) ::
        Full(ArtistCount(p, members, key), CapacityFor(total, p.artistWindow)))
    || Full(AlbumCount(p, members, track.albumKey), CapacityFor(total, p.albumWindow))
  }

  /** The track names each of its keys once. */
  ghost predicate NamesKeysOnce(p: Policy, track: nat) {
    forall key :: multiset(CapacityKeys(TrackAt(p, track)))[key] <= 1
  }

  lemma CountsGrow(p: Policy, members: seq<nat>, x: nat, key: string)
    ensures ArtistCount(p, members + [x], key) ==
            ArtistCount(p, members, key) + multiset(CapacityKeys(TrackAt(p, x)))[key]
    ensures AlbumCount(p, members + [x], key) ==
            AlbumCount(p, members, key) + if TrackAt(p, x).albumKey == key then 1 else 0
  {
    assert (members + [x])[..|members|] == members;
  }

  lemma FitsGrows(p: Policy, members: seq<nat>, total: nat, x: nat)
    requires FitsAll(p, members, total) && !Blocked(p, members, total, x) && NamesKeysOnce(p, x)
    ensures FitsAll(p, members + [x], total)
  {
    hide CapacityKeys, CapacityFor, ArtistCount, AlbumCount;
    forall key
      ensures Fits(ArtistCount(p, members + [x], key), CapacityFor(total, p.artistWindow))
      ensures Fits(AlbumCount(p, members + [x], key), CapacityFor(total, p.albumWindow))
    {
      CountsGrow(p, members, x, key);
      var keys := CapacityKeys(TrackAt(p, x));
      assert key in keys <==> key in multiset(keys);
      assert Fits(ArtistCount(p, members, key), CapacityFor(total, p.artistWindow));
      assert Fits(AlbumCount(p, members, key), CapacityFor(total, p.albumWindow));
    }
  }

  lemma BlockedStays(p: Policy, members: seq<nat>, total: nat, x: nat, candidate: nat)
    requires Blocked(p, members, total, candidate)
    ensures Blocked(p, members + [x], total, candidate)
  {
    hide CapacityKeys, CapacityFor, ArtistCount, AlbumCount;
    var track := TrackAt(p, candidate);
    CountsGrow(p, members, x, track.albumKey);
    if !Full(AlbumCount(p, members, track.albumKey), CapacityFor(total, p.albumWindow)) {
      var key :| key in CapacityKeys(track) && Full(ArtistCount(p, members, key), CapacityFor(total, p.artistWindow));
      CountsGrow(p, members, x, key);
    }
  }

  /** The test the selection makes on its running counts. */
  predicate BlockedBy(p: Policy, artists: map<string, nat>, albums: map<string, nat>, total: nat, candidate: nat) {
    var track := TrackAt(p, candidate);
    || (exists key | key in CapacityKeys(track) :: Full(CountIn(artists, key), CapacityFor(total, p.artistWindow)))
    || Full(CountIn(albums, track.albumKey), CapacityFor(total, p.albumWindow))
  }

  /** Relevance order decides: a candidate is passed over only when one of its
      keys is full beside the source and everything taken before it. */
  function Greedy(p: Policy, source: seq<nat>, order: seq<nat>, requested: nat): (taken: seq<nat>)
    ensures |taken| <= requested
  {
    if order == [] then []
    else
      var n := |order| - 1;
      var taken := Greedy(p, source, order[..n], requested);
      if |taken| < requested && !Blocked(p, source + taken, |source| + requested, order[n]) then
        taken + [order[n]]
      else taken
  }

  /** Once the request is filled, later candidates change nothing. */
  lemma {:induction false} GreedyStops(p: Policy, source: seq<nat>, order: seq<nat>, requested: nat, k: nat)
    requires k <= |order| && |Greedy(p, source, order[..k], requested)| == requested
    ensures Greedy(p, source, order, requested) == Greedy(p, source, order[..k], requested)
  {
    hide Blocked;
    if k < |order| {
      var n := |order| - 1;
      assert order[..n][..k] == order[..k];
      GreedyStops(p, source, order[..n], requested, k);
    } else {
      assert order[..k] == order;
    }
  }

  lemma NothingTaken(p: Policy, source: seq<nat>, order: seq<nat>, requested: nat)
    ensures Greedy(p, source, order[..0], requested) == []
  {
  }

  lemma GreedyStep(p: Policy, source: seq<nat>, order: seq<nat>, requested: nat, k: nat)
    requires k < |order|
    ensures var taken := Greedy(p, source, order[..k], requested);
            Greedy(p, source, order[..k + 1], requested) ==
            if |taken| < requested && !Blocked(p, source + taken, |source| + requested, order[k]) then
              taken + [order[k]]
            else taken
  {
    hide Blocked;
    assert order[..k + 1][..k] == order[..k];
  }

  /** What is taken comes from the order and, if every candidate names its
      keys once, stays within capacity; what is not is blocked, unless the
      request is filled. */
  lemma {:induction false} GreedyMeaning(p: Policy, source: seq<nat>, order: seq<nat>, requested: nat)
    requires FitsAll(p, source, |source| + requested)
    ensures var taken, total := Greedy(p, source, order, requested), |source| + requested;
            && (forall x | x in taken :: x in order)
            && ((forall c | c in order :: NamesKeysOnce(p, c)) ==> FitsAll(p, source + taken, total))
            && (|taken| < requested ==> forall c | c in order :: c in taken || Blocked(p, source + taken, total, c))
  {
    hide Blocked, NamesKeysOnce, FitsAll;
    assert source + [] == source;
    if order != [] {
      var n, total := |order| - 1, |source| + requested;
      var taken := Greedy(p, source, order[..n], requested);
      assert order == order[..n] + [order[n]];
      GreedyMeaning(p, source, order[..n], requested);
      if |taken| < requested && !Blocked(p, source + taken, total, order[n]) {
        assert source + taken + [order[n]] == source + (taken + [order[n]]);
        if NamesKeysOnce(p, order[n]) && FitsAll(p, source + taken, total) {
          FitsGrows(p, source + taken, total, order[n]);
        }
        forall c | c in order && c !in taken && c != order[n]
          ensures Blocked(p, source + (taken + [order[n]]), total, c) {
          BlockedStays(p, source + taken, total, order[n], c);
        }
      }
    }
  }

  /** A candidate that fits in the end is not blocked on the way. */
  lemma FittingIsFree(p: Policy, members: seq<nat>, x: nat, total: nat)
    requires FitsAll(p, members + [x], total)
    ensures FitsAll(p, members, total) && !Blocked(p, members, total, x)
  {
    hide CapacityKeys, CapacityFor, ArtistCount, AlbumCount;
    var track := TrackAt(p, x);
    forall key
      ensures Fits(ArtistCount(p, members, key), CapacityFor(total, p.artistWindow))
      ensures Fits(AlbumCount(p, members, key), CapacityFor(total, p.albumWindow))
      ensures key in CapacityKeys(track) ==> !Full(ArtistCount(p, members, key), CapacityFor(total, p.artistWindow))
      ensures key == track.albumKey ==> !Full(AlbumCount(p, members, key), CapacityFor(total, p.albumWindow))
    {
      CountsGrow(p, members, x, key);
      assert key in CapacityKeys(track) <==> key in multiset(CapacityKeys(track));
      assert Fits(ArtistCount(p, members + [x], key), CapacityFor(total, p.artistWindow));
      assert Fits(AlbumCount(p, members + [x], key), CapacityFor(total, p.albumWindow));
    }
  }

  lemma {:induction false} GreedyTakesAll(p: Policy, source: seq<nat>, order: seq<nat>, requested: nat)
    requires |order| <= requested && FitsAll(p, source + order, |source| + requested)
    ensures Greedy(p, source, order, requested) == order
    ensures FitsAll(p, source, |source| + requested)
  {
    hide Blocked, FitsAll;
    if order == [] {
      assert source + order == source;
    } else {
      var n := |order| - 1;
      assert order == order[..n] + [order[n]];
      assert source + order == source + order[..n] + [order[n]];
      FittingIsFree(p, source + order[..n], order[n], |source| + requested);
      GreedyTakesAll(p, source, order[..n], requested);
    }
  }

  /** A membership that the filter accepts is taken whole, whatever the
      relevance order of its additions. */
  lemma AcceptedIsTakenWhole(p: Policy, source: seq<nat>, additions: seq<nat>, order: seq<nat>)
    requires WithinCapacity(p, source + additions) && multiset(order) == multiset(additions)
    ensures Greedy(p, source, order, |order|) == order && FitsAll(p, source, |source| + |order|)
  {
    hide FitsAll, Greedy;
    assert |order| == |multiset(order)| == |multiset(additions)| == |additions|;
    FitsIgnoreOrder(p, source + additions, source + order, |source| + |order|);
    GreedyTakesAll(p, source, order, |order|);
  }

  lemma FitsIgnoreOrder(p: Policy, members: seq<nat>, others: seq<nat>, total: nat)
    requires multiset(members) == multiset(others) && FitsAll(p, members, total)
    ensures FitsAll(p, others, total)
  {
    hide CapacityKeys, CapacityFor, Tally;
    forall key
      ensures Fits(ArtistCount(p, others, key), CapacityFor(total, p.artistWindow))
      ensures Fits(AlbumCount(p, others, key), CapacityFor(total, p.albumWindow))
    {
      TallyIgnoresOrder(members, others, ArtistWeight(p, key));
      TallyIgnoresOrder(members, others, AlbumWeight(p, key));
      assert Fits(ArtistCount(p, members, key), CapacityFor(total, p.artistWindow));
      assert Fits(AlbumCount(p, members, key), CapacityFor(total, p.albumWindow));
    }
  }

  /** Candidates in relevance order, each taken unless one of its keys is full. */
  method SelectAdditions(p: Policy, source: seq<nat>, order: seq<nat>, requested: nat) returns (result: Selection)
    ensures result.SourceOverCapacity? <==> !FitsAll(p, source, |source| + requested)
    ensures !result.SourceOverCapacity? ==>
              var taken := Greedy(p, source, order, requested);
              result == if |taken| < requested then TooFew(|taken|) else Selected(taken)
    ensures requested == |order| && WithinCapacity(p, source + order) ==> result == Selected(order)
  {
    hide CapacityKeys, CapacityFor, ArtistCount, AlbumCount, Blocked, BlockedBy, Bump, Greedy, FitsAll;
    if requested == |order| && WithinCapacity(p, source + order) {
      GreedyTakesAll(p, source, order, requested);
    }
    var total := |source| + requested;
    var artists, albums := CountKeys(p, source);
    var fits := CheckCounts(p, source, artists, albums, total);
    if !fits {
      return SourceOverCapacity;
    }
    var additions: seq<nat> := [];
    assert source + [] == source;
    assert additions == Greedy(p, source, order[..0], requested) by { NothingTaken(p, source, order, requested); }
    var k := 0;
    while k < |order| && |additions| < requested
      invariant 0 <= k <= |order| && |additions| <= requested
      invariant additions == Greedy(p, source, order[..k], requested)
      invariant forall key :: CountIn(artists, key) == ArtistCount(p, source + additions, key)
      invariant forall key :: CountIn(albums, key) == AlbumCount(p, source + additions, key)
    {
      var candidate := order[k];
      CountsBlock(p, source + additions, artists, albums, total, candidate);
      GreedyStep(p, source, order, requested, k);
      if !BlockedBy(p, artists, albums, total, candidate) {
        assert source + additions + [candidate] == source + (additions + [candidate]);
        artists, albums := AddKeys(p, source + additions, candidate, artists, albums);
        additions := additions + [candidate];
      }
      k := k + 1;
    }
    if |additions| < requested {
      assert order[..k] == order;
      return TooFew(|additions|);
    }
    GreedyStops(p, source, order, requested, k);
    return Selected(additions);
  }

  lemma CountsBlock(p: Policy, members: seq<nat>, artists: map<string, nat>, albums: map<string, nat>, total: nat,
                    candidate: nat)
    requires forall key :: CountIn(artists, key) == ArtistCount(p, members, key)
    requires forall key :: CountIn(albums, key) == AlbumCount(p, members, key)
    ensures BlockedBy(p, artists, albums, total, candidate) <==> Blocked(p, members, total, candidate)
  {
    hide CapacityKeys, CapacityFor, ArtistCount, AlbumCount, CountIn;
  }

  method CheckCounts(p: Policy, members: seq<nat>, artists: map<string, nat>, albums: map<string, nat>, total: nat)
    returns (fits: bool)
    requires forall key :: CountIn(artists, key) == ArtistCount(p, members, key)
    requires forall key :: CountIn(albums, key) == AlbumCount(p, members, key)
    ensures fits <==> FitsAll(p, members, total)
  {
    hide CapacityFor, ArtistCount, AlbumCount;
    var artistCapacity, albumCapacity := CapacityFor(total, p.artistWindow), CapacityFor(total, p.albumWindow);
    fits :=
      && (forall key | key in artists :: Fits(artists[key], artistCapacity))
      && (forall key | key in albums :: Fits(albums[key], albumCapacity));
    forall key
      ensures key in artists ==> artists[key] == ArtistCount(p, members, key)
      ensures key in albums ==> albums[key] == AlbumCount(p, members, key)
      ensures fits ==> Fits(ArtistCount(p, members, key), artistCapacity)
      ensures fits ==> Fits(AlbumCount(p, members, key), albumCapacity)
    {
      assert CountIn(artists, key) == ArtistCount(p, members, key);
      assert CountIn(albums, key) == AlbumCount(p, members, key);
    }
  }

  method AddKeys(p: Policy, members: seq<nat>, x: nat, artists0: map<string, nat>, albums0: map<string, nat>)
    returns (artists: map<string, nat>, albums: map<string, nat>)
    requires forall key :: CountIn(artists0, key) == ArtistCount(p, members, key)
    requires forall key :: CountIn(albums0, key) == AlbumCount(p, members, key)
    ensures forall key :: CountIn(artists, key) == ArtistCount(p, members + [x], key)
    ensures forall key :: CountIn(albums, key) == AlbumCount(p, members + [x], key)
  {
    hide CapacityKeys, ArtistCount, AlbumCount, Bump;
    var track := TrackAt(p, x);
    forall key
      ensures ArtistCount(p, members + [x], key) == ArtistCount(p, members, key) + multiset(CapacityKeys(track))[key]
      ensures AlbumCount(p, members + [x], key) == AlbumCount(p, members, key) + if track.albumKey == key then 1 else 0
    {
      CountsGrow(p, members, x, key);
    }
    BumpCounts(albums0, track.albumKey);
    artists := BumpAll(artists0, CapacityKeys(track));
    albums := Bump(albums0, track.albumKey);
  }
}
