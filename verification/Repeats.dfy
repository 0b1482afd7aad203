/** Repeat windows: when two tracks of a route stand too close to each other.

    A route is a sequence of track indices.  Artist, album and track identity
    each carry a window; a window of 0 switches that identity off. */
module Repeats {
  import opened Wrappers

  /** The repeat identities of one library track.  Acoustic features are not
      part of this model: distances are supplied by the caller. */
  datatype Track = Track(artistKey: string, artistRepeatKeys: seq<string>, albumKey: string)

  /** The library together with the three repeat windows. */
  datatype Policy = Policy(tracks: seq<Track>, artistWindow: nat, albumWindow: nat, trackWindow: nat)

  /** Route members are validated before any planner reads them; the blank
      track only makes the lookup total. */
  function TrackAt(p: Policy, index: nat): Track {
    if index < |p.tracks| then p.tracks[index] else Track("", [], "")
  }

  predicate ValidIndices(p: Policy, route: seq<nat>) {
    forall i | 0 <= i < |route| :: route[i] < |p.tracks|
  }

  /** The first index that is not a track of the library. */
  function FirstInvalid(p: Policy, route: seq<nat>): (r: Option<nat>)
    ensures r.None? <==> ValidIndices(p, route)
    ensures r.Some? ==>
              exists i :: 0 <= i < |route| && route[i] == r.value >= |p.tracks| && ValidIndices(p, route[..i])
  {
    if route == [] then None
    else if route[0] >= |p.tracks| then
      assert ValidIndices(p, route[..0]);
      Some(route[0])
    else
      assert forall i | 0 < i < |route| :: route[i] == route[1..][i - 1];
      assert forall i | 0 <= i < |route[1..]| && ValidIndices(p, route[1..][..i]) :: ValidIndices(p, route[..i + 1]);
      FirstInvalid(p, route[1..])
  }

  lemma ValidIndicesJoin(p: Policy, xs: seq<nat>, ys: seq<nat>)
    ensures ValidIndices(p, xs + ys) <==> ValidIndices(p, xs) && ValidIndices(p, ys)
  {
    var all := xs + ys;
    if ValidIndices(p, all) {
      forall i | 0 <= i < |xs| ensures xs[i] < |p.tracks| {
        assert all[i] < |p.tracks|;
      }
      forall i | 0 <= i < |ys| ensures ys[i] < |p.tracks| {
        assert all[|xs| + i] < |p.tracks|;
      }
    }
  }

  /** `x` is no track of the library, and the first such index in `route`. */
  ghost predicate FirstUnknownIn(p: Policy, route: seq<nat>, x: nat) {
    exists i :: 0 <= i < |route| && route[i] == x >= |p.tracks| && ValidIndices(p, route[..i])
  }

  /** Of two lists in a row the first unknown index is the first of the first
      list, unless that list is valid. */
  lemma FirstUnknownJoin(p: Policy, front: seq<nat>, back: seq<nat>, x: nat)
    requires FirstUnknownIn(p, front + back, x)
    ensures FirstUnknownIn(p, if ValidIndices(p, front) then back else front, x)
  {
    var all := front + back;
    var i :| 0 <= i < |all| && all[i] == x >= |p.tracks| && ValidIndices(p, all[..i]);
    if i < |front| {
      assert all[..i] == front[..i] && all[i] == front[i];
    } else {
      assert all[..i] == front + back[..i - |front|];
      ValidIndicesJoin(p, front, back[..i - |front|]);
      assert back[i - |front|] == x;
    }
  }

  /** Some key of `left` is also a key of `right`. */
  predicate SharesKey(left: seq<string>, right: seq<string>) {
    left != [] && (left[0] in right || SharesKey(left[1..], right))
  }

  lemma {:induction false} SharesKeyMeaning(left: seq<string>, right: seq<string>)
    ensures SharesKey(left, right) <==> exists key | key in left :: key in right
  {
    if left != [] {
      SharesKeyMeaning(left[1..], right);
      assert forall key :: key in left <==> key == left[0] || key in left[1..];
    }
  }

  predicate ArtistsRepeat(left: Track, right: Track) {
    if left.artistRepeatKeys == [] || right.artistRepeatKeys == [] then
      && left.artistKey != "various artists"
      && right.artistKey != "various artists"
      && left.artistKey != ""
      && left.artistKey == right.artistKey
    else
      SharesKey(left.artistRepeatKeys, right.artistRepeatKeys)
  }

  /** Artists repeat over a shared repeat key; a side without repeat keys falls
      back on equal names, which must be real ones. */
  lemma ArtistsRepeatMeaning(left: Track, right: Track)
    ensures left.artistRepeatKeys != [] && right.artistRepeatKeys != [] ==>
              (ArtistsRepeat(left, right) <==>
               exists i, j :: 0 <= i < |left.artistRepeatKeys| && 0 <= j < |right.artistRepeatKeys| &&
                              left.artistRepeatKeys[i] == right.artistRepeatKeys[j])
    ensures left.artistRepeatKeys == [] || right.artistRepeatKeys == [] ==>
              (ArtistsRepeat(left, right) <==>
               left.artistKey == right.artistKey && left.artistKey !in {"", "various artists"})
  {
    hide SharesKey;
    var ls, rs := left.artistRepeatKeys, right.artistRepeatKeys;
    SharesKeyMeaning(ls, rs);
    if SharesKey(ls, rs) {
      var key :| key in ls && key in rs;
    }
    if i, j :| 0 <= i < |ls| && 0 <= j < |rs| && ls[i] == rs[j] {
      assert ls[i] in ls && ls[i] in rs;
    }
  }

  predicate AlbumsRepeat(left: Track, right: Track) {
    left.albumKey != "" && left.albumKey == right.albumKey
  }

  lemma IdentitiesSymmetric(left: Track, right: Track)
    ensures ArtistsRepeat(left, right) == ArtistsRepeat(right, left)
    ensures AlbumsRepeat(left, right) == AlbumsRepeat(right, left)
  {
    SharesKeyMeaning(left.artistRepeatKeys, right.artistRepeatKeys);
    SharesKeyMeaning(right.artistRepeatKeys, left.artistRepeatKeys);
  }

  /** The two identities tested by the shared window scan. */
  predicate KeysTooClose(p: Policy, a: nat, b: nat, distance: nat) {
    || (p.artistWindow > 0 && distance <= p.artistWindow && ArtistsRepeat(TrackAt(p, a), TrackAt(p, b)))
    || (p.albumWindow > 0 && distance <= p.albumWindow && AlbumsRepeat(TrackAt(p, a), TrackAt(p, b)))
  }

  predicate TooClose(p: Policy, a: nat, b: nat, distance: nat) {
    KeysTooClose(p, a, b, distance) || (p.trackWindow > 0 && distance <= p.trackWindow && a == b)
  }

  function Max(a: nat, b: nat): nat {
    if a < b then b else a
  }

  function Min(a: nat, b: nat): nat {
    if a < b then a else b
  }

  /** Subtraction that stops at zero. */
  function Minus(a: nat, b: nat): nat {
    if a < b then 0 else a - b
  }

  function AbsDiff(a: nat, b: nat): nat {
    if a < b then b - a else a - b
  }

  /** The widest window that two tracks share, 0 when nothing repeats. */
  function SharedWindow(p: Policy, a: nat, b: nat): nat {
    Max(if ArtistsRepeat(TrackAt(p, a), TrackAt(p, b)) then p.artistWindow else 0,
        Max(if AlbumsRepeat(TrackAt(p, a), TrackAt(p, b)) then p.albumWindow else 0,
            if a == b then p.trackWindow else 0))
  }

  /** The widest shared window decides all three tests at once. */
  lemma SharedWindowDecides(p: Policy, a: nat, b: nat, distance: nat)
    requires distance > 0
    ensures TooClose(p, a, b, distance) <==> distance <= SharedWindow(p, a, b)
    ensures SharedWindow(p, a, b) == SharedWindow(p, b, a)
  {
    IdentitiesSymmetric(TrackAt(p, a), TrackAt(p, b));
  }

  lemma KeysTooCloseSymmetric(p: Policy, a: nat, b: nat, distance: nat)
    ensures KeysTooClose(p, a, b, distance) == KeysTooClose(p, b, a, distance)
  {
    IdentitiesSymmetric(TrackAt(p, a), TrackAt(p, b));
  }

  lemma TooCloseSymmetric(p: Policy, a: nat, b: nat, distance: nat)
    ensures TooClose(p, a, b, distance) == TooClose(p, b, a, distance)
  {
    IdentitiesSymmetric(TrackAt(p, a), TrackAt(p, b));
  }

  predicate KeyWindowsSafeAt(p: Policy, route: seq<nat>, position: nat)
    requires position < |route|
  {
    forall other | 0 <= other < |route| && other != position ::
      !KeysTooClose(p, route[position], route[other], AbsDiff(other, position))
  }

  predicate TrackWindowSafeAt(p: Policy, route: seq<nat>, position: nat)
    requires position < |route|
  {
    p.trackWindow == 0 ||
    forall other | 0 <= other < |route| ::
      other == position || AbsDiff(other, position) > p.trackWindow || route[other] != route[position]
  }

  /** No member of the route stands too close to the one at `position`. */
  predicate PositionSafe(p: Policy, route: seq<nat>, position: nat)
    requires position < |route|
  {
    KeyWindowsSafeAt(p, route, position) && TrackWindowSafeAt(p, route, position)
  }

  /** The scan over a route that stops at the first neighbour too close. */
  method ScanKeyWindows(p: Policy, route: seq<nat>, position: nat) returns (safe: bool)
    requires position < |route|
    ensures safe <==> KeyWindowsSafeAt(p, route, position)
  {
    var other := 0;
    while other < |route|
      invariant 0 <= other <= |route|
      invariant forall k | 0 <= k < other && k != position ::
        !KeysTooClose(p, route[position], route[k], AbsDiff(k, position))
    {
      if other != position && KeysTooClose(p, route[position], route[other], AbsDiff(other, position)) {
        return false;
      }
      other := other + 1;
    }
    return true;
  }

  /** Every pair whose later member is at `from` or after is far enough apart. */
  ghost predicate SafeFrom(p: Policy, route: seq<nat>, from: nat) {
    forall i, j | 0 <= i < j < |route| && from <= j :: !TooClose(p, route[i], route[j], j - i)
  }

  /** Artist and album windows kept between every pair. */
  ghost predicate CleanRoute(p: Policy, route: seq<nat>) {
    forall i, j | 0 <= i < j < |route| :: !KeysTooClose(p, route[i], route[j], j - i)
  }

  /** A clean route is a safe one with the track window switched off. */
  lemma CleanIsSafeWithoutTrackWindow(p: Policy, route: seq<nat>)
    ensures CleanRoute(p, route) <==> SafeFrom(p.(trackWindow := 0), route, 0)
  {
    hide ArtistsRepeat, AlbumsRepeat;
    var q := p.(trackWindow := 0);
    forall l, r | 0 <= l < r < |route|
      ensures KeysTooClose(p, route[l], route[r], r - l) == TooClose(q, route[l], route[r], r - l)
    {
    }
  }

  lemma PositionSafePairs(p: Policy, route: seq<nat>, position: nat)
    requires position < |route|
    ensures PositionSafe(p, route, position) <==>
            && (forall i | 0 <= i < position :: !TooClose(p, route[i], route[position], position - i))
            && (forall j | position < j < |route| :: !TooClose(p, route[position], route[j], j - position))
  {
    forall i | 0 <= i < position
      ensures TooClose(p, route[i], route[position], position - i) <==>
              (KeysTooClose(p, route[position], route[i], AbsDiff(i, position)) ||
               (p.trackWindow > 0 && AbsDiff(i, position) <= p.trackWindow && route[i] == route[position]))
    {
      TooCloseSymmetric(p, route[i], route[position], position - i);
    }
    forall j | position < j < |route|
      ensures TooClose(p, route[position], route[j], j - position) <==>
              (KeysTooClose(p, route[position], route[j], AbsDiff(j, position)) ||
               (p.trackWindow > 0 && AbsDiff(j, position) <= p.trackWindow && route[j] == route[position]))
    {
    }
    if PositionSafe(p, route, position) {
      forall i | 0 <= i < position ensures !TooClose(p, route[i], route[position], position - i) {
        assert !KeysTooClose(p, route[position], route[i], AbsDiff(i, position));
      }
      forall j | position < j < |route| ensures !TooClose(p, route[position], route[j], j - position) {
        assert !KeysTooClose(p, route[position], route[j], AbsDiff(j, position));
      }
    }
  }

  /** Checking every position from `from` on is the same as separating every
      pair that ends there. */
  lemma SafeFromPositions(p: Policy, route: seq<nat>, from: nat)
    ensures SafeFrom(p, route, from) <==>
            forall position | from <= position < |route| :: PositionSafe(p, route, position)
  {
    forall position | from <= position < |route|
      ensures PositionSafe(p, route, position) <==>
              && (forall i | 0 <= i < position :: !TooClose(p, route[i], route[position], position - i))
              && (forall j | position < j < |route| :: !TooClose(p, route[position], route[j], j - position))
    {
      PositionSafePairs(p, route, position);
    }
  }

  lemma NeverCloseIsSafe(p: Policy, route: seq<nat>, position: nat)
    requires position < |route| && forall a, b, distance :: !TooClose(p, a, b, distance)
    ensures PositionSafe(p, route, position)
  {
    hide TooClose, PositionSafe;
    PositionSafePairs(p, route, position);
  }

  /** Tracks without albums, told apart by artist alone. */
  function ByArtist(keys: seq<string>, artistWindow: nat): Policy {
    Policy(seq(|keys|, i requires 0 <= i < |keys| => Track(keys[i], [], "")), artistWindow, 0, 0)
  }

  lemma ByArtistRepeats(keys: seq<string>, artistWindow: nat, a: nat, b: nat, distance: nat)
    requires a < |keys| && b < |keys| && "" !in keys && "various artists" !in keys && artistWindow > 0
    ensures TooClose(ByArtist(keys, artistWindow), a, b, distance) <==> distance <= artistWindow && keys[a] == keys[b]
  {
  }
}
