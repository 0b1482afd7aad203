/** The comparison chains of the planners, and the stable sort they drive. */
module Ordering {
  /** One comparison key: an integer rank, then worst leg, then leg sum, then
      guidance (larger first), then the track sequence. */
  datatype Key = Key(rank: nat, worst: real, sum: real, guidance: real, path: seq<nat>)

  predicate LexLe(a: seq<nat>, b: seq<nat>) {
    a == [] || (b != [] && (a[0] < b[0] || (a[0] == b[0] && LexLe(a[1..], b[1..]))))
  }

  predicate KeyLe(a: Key, b: Key) {
    a.rank < b.rank || (a.rank == b.rank &&
    (a.worst < b.worst || (a.worst == b.worst &&
    (a.sum < b.sum || (a.sum == b.sum &&
    (a.guidance > b.guidance || (a.guidance == b.guidance && LexLe(a.path, b.path))))))))
  }

  lemma {:induction false} LexLeTotal(a: seq<nat>, b: seq<nat>)
    ensures LexLe(a, b) || LexLe(b, a)
    ensures LexLe(a, b) && LexLe(b, a) ==> a == b
  {
    if a != [] && b != [] && a[0] == b[0] {
      LexLeTotal(a[1..], b[1..]);
      assert a == [a[0]] + a[1..] && b == [b[0]] + b[1..];
    }
  }

  lemma {:induction false} LexLeTransitive(a: seq<nat>, b: seq<nat>, c: seq<nat>)
    requires LexLe(a, b) && LexLe(b, c)
    ensures LexLe(a, c)
  {
    if a != [] && a[0] == b[0] == c[0] {
      LexLeTransitive(a[1..], b[1..], c[1..]);
    }
  }

  lemma KeyLeTotal(a: Key, b: Key)
    ensures KeyLe(a, b) || KeyLe(b, a)
    ensures KeyLe(a, b) && KeyLe(b, a) ==> a == b
    ensures KeyLe(a, a)
  {
    LexLeTotal(a.path, b.path);
    LexLeTotal(a.path, a.path);
  }

  lemma KeyLeTransitive(a: Key, b: Key, c: Key)
    requires KeyLe(a, b) && KeyLe(b, c)
    ensures KeyLe(a, c)
  {
    if LexLe(a.path, b.path) && LexLe(b.path, c.path) {
      LexLeTransitive(a.path, b.path, c.path);
    }
  }

  /** `a` is smaller where the two first differ. */
  ghost predicate SmallerAt(a: seq<nat>, b: seq<nat>, k: nat) {
    k < |a| && k < |b| && a[k] < b[k] && forall i | 0 <= i < k :: a[i] == b[i]
  }

  /** `a` is `b`, or begins it, or is smaller where the two first differ. */
  ghost predicate ComesFirst(a: seq<nat>, b: seq<nat>) {
    a <= b || exists k: nat :: SmallerAt(a, b, k)
  }

  lemma SmallerAfter(a: seq<nat>, b: seq<nat>, k: nat)
    requires a != [] && b != [] && a[0] == b[0]
    ensures SmallerAt(a, b, k + 1) <==> SmallerAt(a[1..], b[1..], k)
  {
    if SmallerAt(a[1..], b[1..], k) {
      forall i | 0 <= i < k + 1 ensures a[i] == b[i] {
        assert i > 0 ==> a[1..][i - 1] == b[1..][i - 1];
      }
    }
  }

  lemma {:induction false} LexLeMeaning(a: seq<nat>, b: seq<nat>)
    ensures LexLe(a, b) <==> ComesFirst(a, b)
  {
    if a == [] || b == [] {
    } else if a[0] != b[0] {
      assert a[0] < b[0] ==> SmallerAt(a, b, 0);
    } else {
      LexLeMeaning(a[1..], b[1..]);
      assert a == [a[0]] + a[1..] && b == [b[0]] + b[1..];
      hide SmallerAt;
      if k: nat :| SmallerAt(a[1..], b[1..], k) {
        SmallerAfter(a, b, k);
      }
      if k: nat :| SmallerAt(a, b, k) {
        NotAtFirst(a, b, k);
        SmallerAfter(a, b, k - 1);
      }
    }
  }

  lemma NotAtFirst(a: seq<nat>, b: seq<nat>, k: nat)
    requires SmallerAt(a, b, k) && a[0] == b[0]
    ensures k > 0
  {
  }

  /** The first component in which two keys differ decides: the smaller rank,
      worst leg or sum, the larger guidance, the earlier track sequence. */
  lemma KeyLeMeaning(a: Key, b: Key)
    ensures KeyLe(a, b) <==>
            if a.rank != b.rank then a.rank < b.rank
            else if a.worst != b.worst then a.worst < b.worst
            else if a.sum != b.sum then a.sum < b.sum
            else if a.guidance != b.guidance then a.guidance > b.guidance
            else ComesFirst(a.path, b.path)
  {
    LexLeMeaning(a.path, b.path);
  }

  lemma KeyLeRank(a: Key, b: Key)
    requires KeyLe(a, b)
    ensures a.rank <= b.rank
    ensures a.rank == b.rank ==> a.worst <= b.worst
  {
  }

  ghost predicate SortedBy<T(!new)>(xs: seq<T>, key: T -> Key) {
    forall i, j | 0 <= i <= j < |xs| :: KeyLe(key(xs[i]), key(xs[j]))
  }

  /** Puts `x` in front of the first element that does not come before it. */
  function InsertBy<T>(x: T, xs: seq<T>, key: T -> Key): (r: seq<T>)
    ensures |r| == |xs| + 1
  {
    if xs == [] || KeyLe(key(x), key(xs[0])) then [x] + xs
    else [xs[0]] + InsertBy(x, xs[1..], key)
  }

  /** The stable sort. */
  function SortBy<T>(xs: seq<T>, key: T -> Key): (r: seq<T>)
    ensures |r| == |xs|
  {
    if xs == [] then [] else InsertBy(xs[0], SortBy(xs[1..], key), key)
  }

  lemma {:induction false} InsertByMembers<T(!new)>(x: T, xs: seq<T>, key: T -> Key)
    ensures multiset(InsertBy(x, xs, key)) == multiset(xs) + multiset{x}
  {
    if xs != [] {
      assert xs == [xs[0]] + xs[1..];
      InsertByMembers(x, xs[1..], key);
    }
  }

  lemma {:induction false} InsertBySorts<T(!new)>(x: T, xs: seq<T>, key: T -> Key)
    requires SortedBy(xs, key)
    ensures SortedBy(InsertBy(x, xs, key), key)
  {
    hide KeyLe;
    var r := InsertBy(x, xs, key);
    KeyLeTotal(key(x), key(x));
    if xs == [] {
    } else if KeyLe(key(x), key(xs[0])) {
      forall j | 0 <= j < |xs| ensures KeyLe(key(x), key(xs[j])) {
        KeyLeTransitive(key(x), key(xs[0]), key(xs[j]));
      }
    } else {
      KeyLeTotal(key(x), key(xs[0]));
      InsertBySorts(x, xs[1..], key);
      var rest := InsertBy(x, xs[1..], key);
      InsertByMembers(x, xs[1..], key);
      forall j | 0 <= j < |rest| ensures KeyLe(key(xs[0]), key(rest[j])) {
        assert rest[j] in multiset(rest);
        assert rest[j] == x || rest[j] in xs[1..];
      }
      KeyLeTotal(key(xs[0]), key(xs[0]));
    }
  }

  /** The sort rearranges and never loses or repeats an element. */
  lemma {:induction false} SortByMembers<T(!new)>(xs: seq<T>, key: T -> Key)
    ensures multiset(SortBy(xs, key)) == multiset(xs)
    ensures forall x :: x in SortBy(xs, key) <==> x in xs
  {
    if xs != [] {
      assert xs == [xs[0]] + xs[1..];
      SortByMembers(xs[1..], key);
      InsertByMembers(xs[0], SortBy(xs[1..], key), key);
    }
    forall x ensures x in SortBy(xs, key) <==> x in xs {
      assert x in SortBy(xs, key) <==> x in multiset(SortBy(xs, key));
    }
  }

  lemma {:induction false} SortBySorts<T(!new)>(xs: seq<T>, key: T -> Key)
    ensures SortedBy(SortBy(xs, key), key)
  {
    if xs != [] {
      SortBySorts(xs[1..], key);
      InsertBySorts(xs[0], SortBy(xs[1..], key), key);
    }
  }

  /** The elements with one key, in order. */
  ghost function WithKey<T>(xs: seq<T>, key: T -> Key, k: Key): seq<T> {
    if xs == [] then [] else (if key(xs[0]) == k then [xs[0]] else []) + WithKey(xs[1..], key, k)
  }

  lemma {:induction false} InsertByStable<T>(x: T, xs: seq<T>, key: T -> Key, k: Key)
    ensures WithKey(InsertBy(x, xs, key), key, k) == (if key(x) == k then [x] else []) + WithKey(xs, key, k)
  {
    hide KeyLe;
    var r := InsertBy(x, xs, key);
    if xs == [] || KeyLe(key(x), key(xs[0])) {
      assert r[1..] == xs;
    } else {
      KeyLeTotal(key(x), key(xs[0]));
      InsertByStable(x, xs[1..], key, k);
      assert r[1..] == InsertBy(x, xs[1..], key);
    }
  }

  /** Elements with equal keys keep their order: the sort is stable. */
  lemma {:induction false} SortByStable<T>(xs: seq<T>, key: T -> Key, k: Key)
    ensures WithKey(SortBy(xs, key), key, k) == WithKey(xs, key, k)
  {
    hide InsertBy;
    if xs != [] {
      SortByStable(xs[1..], key, k);
      InsertByStable(xs[0], SortBy(xs[1..], key), key, k);
    }
  }

  function Take<T>(xs: seq<T>, limit: nat): (r: seq<T>)
    ensures |r| <= limit && |r| <= |xs|
  {
    if limit < |xs| then xs[..limit] else xs
  }

  /** `percent` of `n`, rounded down. */
  function Share(n: nat, percent: nat): (r: nat)
    requires percent <= 100
    ensures r <= n
  {
    assert n * percent <= n * 100;
    n * percent / 100
  }

  lemma ShareIsFloor(n: nat, percent: nat)
    requires percent <= 100
    ensures 100 * Share(n, percent) <= n * percent < 100 * Share(n, percent) + 100
  {
  }

  /** A larger percentage never shares out less, and all of it is everything. */
  lemma ShareGrows(n: nat, low: nat, high: nat)
    requires low <= high <= 100
    ensures Share(n, low) <= Share(n, high) <= Share(n, 100) == n
    ensures Share(n, 0) == 0
  {
    MulMonotone(n, n, low, high);
    MulMonotone(n, n, high, 100);
  }

  function Power(base: nat, exponent: nat): nat {
    if exponent == 0 then 1 else base * Power(base, exponent - 1)
  }

  /** Drops each element whose path equals that of the element kept before it. */
  function DedupBy<T>(xs: seq<T>, path: T -> seq<nat>): (r: seq<T>)
    ensures |r| <= |xs|
    decreases |xs|
  {
    if |xs| < 2 then xs
    else if path(xs[0]) == path(xs[1]) then DedupBy([xs[0]] + xs[2..], path)
    else [xs[0]] + DedupBy(xs[1..], path)
  }

  ghost predicate HasBy<T(!new)>(xs: seq<T>, path: T -> seq<nat>, p: seq<nat>) {
    exists x :: x in xs && path(x) == p
  }

  /** Deduplication invents nothing and loses no path. */
  lemma {:induction false} DedupByKeeps<T(!new)>(xs: seq<T>, path: T -> seq<nat>, p: seq<nat>)
    ensures forall x :: x in DedupBy(xs, path) ==> x in xs
    ensures HasBy(xs, path, p) ==> HasBy(DedupBy(xs, path), path, p)
    decreases |xs|
  {
    if |xs| >= 2 {
      if path(xs[0]) == path(xs[1]) {
        var fewer := [xs[0]] + xs[2..];
        assert xs == [xs[0], xs[1]] + xs[2..];
        if HasBy(xs, path, p) {
          var x :| x in xs && path(x) == p;
          assert (if x == xs[1] then xs[0] else x) in fewer;
        }
        DedupByKeeps(fewer, path, p);
      } else {
        assert xs == [xs[0]] + xs[1..];
        DedupByKeeps(xs[1..], path, p);
        if HasBy(xs, path, p) {
          var x :| x in xs && path(x) == p;
          if x == xs[0] {
            assert x in DedupBy(xs, path);
          } else {
            assert x in xs[1..];
            var kept :| kept in DedupBy(xs[1..], path) && path(kept) == p;
            assert kept in DedupBy(xs, path);
          }
        }
      }
    }
  }

  ghost predicate DistinctBy<T(!new)>(xs: seq<T>, path: T -> seq<nat>) {
    forall i, j | 0 <= i < j < |xs| :: path(xs[i]) != path(xs[j])
  }

  lemma TwiceInMultiset<T>(xs: seq<T>, i: nat, j: nat)
    requires i < j < |xs| && xs[i] == xs[j]
    ensures multiset(xs)[xs[i]] >= 2
  {
    assert xs == xs[..i] + [xs[i]] + xs[i + 1..j] + [xs[j]] + xs[j + 1..];
  }

  lemma {:induction false} OnceInMultiset<T(!new)>(xs: seq<T>, path: T -> seq<nat>, x: T)
    requires DistinctBy(xs, path)
    ensures multiset(xs)[x] <= 1
  {
    if xs != [] {
      var n := |xs| - 1;
      assert xs == xs[..n] + [xs[n]];
      OnceInMultiset(xs[..n], path, x);
      if x == xs[n] {
        assert x !in xs[..n];
      }
    }
  }

  /** Rearranging keeps paths distinct. */
  lemma DistinctByPermutes<T(!new)>(xs: seq<T>, ys: seq<T>, path: T -> seq<nat>)
    requires DistinctBy(xs, path) && multiset(xs) == multiset(ys)
    ensures DistinctBy(ys, path)
  {
    forall i, j | 0 <= i < j < |ys| ensures path(ys[i]) != path(ys[j]) {
      assert ys[i] in multiset(xs) && ys[j] in multiset(xs);
      var k :| 0 <= k < |xs| && xs[k] == ys[i];
      var l :| 0 <= l < |xs| && xs[l] == ys[j];
      if k == l {
        TwiceInMultiset(ys, i, j);
        OnceInMultiset(xs, path, ys[i]);
      }
    }
  }

  lemma {:induction false} DedupByIdle<T(!new)>(xs: seq<T>, path: T -> seq<nat>)
    requires DistinctBy(xs, path)
    ensures DedupBy(xs, path) == xs
  {
    if |xs| >= 2 {
      assert path(xs[0]) != path(xs[1]);
      DedupByIdle(xs[1..], path);
    }
  }

  lemma ProductNonNegative(a: nat, b: nat)
    ensures 0 <= a * b
  {
  }

  lemma MulMonotone(a: nat, b: nat, c: nat, d: nat)
    requires a <= b && c <= d
    ensures a * c <= b * d
  {
    assert a * c <= a * d <= b * d;
  }

  lemma PowerStep(base: nat, exponent: nat)
    ensures Power(base, exponent + 1) == Power(base, exponent) * base
  {
  }

  lemma PowerZero(base: nat)
    ensures Power(base, 0) == 1
  {
  }

  lemma {:induction false} PowerGrows(base: nat, low: nat, high: nat)
    requires base > 0 && low <= high
    ensures 0 < Power(base, low) <= Power(base, high)
  {
    PowerPositive(base, low);
    if low < high {
      PowerGrows(base, low, high - 1);
      assert Power(base, high - 1) <= base * Power(base, high - 1);
    }
  }

  lemma {:induction false} PowerPositive(base: nat, exponent: nat)
    requires base > 0
    ensures 0 < Power(base, exponent)
  {
    if exponent > 0 {
      PowerPositive(base, exponent - 1);
    }
  }

  // ----- buckets -----

  /** The elements with one count, in order. */
  function Bucket<T>(xs: seq<T>, count: T -> nat, c: nat): seq<T> {
    if xs == [] then []
    else
      var last := xs[|xs| - 1];
      Bucket(xs[..|xs| - 1], count, c) + if count(last) == c then [last] else []
  }

  /** Each bucket cut on its own, for all counts below `counts`. */
  function PerBucket<T>(xs: seq<T>, count: T -> nat, cut: seq<T> -> seq<T>, counts: nat): seq<T> {
    if counts == 0 then []
    else PerBucket(xs, count, cut, counts - 1) + cut(Bucket(xs, count, counts - 1))
  }

  lemma {:induction false} BucketMembers<T(!new)>(xs: seq<T>, count: T -> nat, c: nat)
    ensures forall x :: x in Bucket(xs, count, c) <==> x in xs && count(x) == c
    ensures |Bucket(xs, count, c)| <= |xs|
  {
    if xs != [] {
      var fewer, last := xs[..|xs| - 1], xs[|xs| - 1];
      assert xs == fewer + [last];
      BucketMembers(fewer, count, c);
    }
  }

  function CountBelow<T>(xs: seq<T>, count: T -> nat, c: nat): (n: nat)
    ensures n <= |xs|
  {
    if xs == [] then 0
    else CountBelow(xs[..|xs| - 1], count, c) + if count(xs[|xs| - 1]) < c then 1 else 0
  }

  lemma {:induction false} CountBelowStep<T>(xs: seq<T>, count: T -> nat, c: nat)
    ensures CountBelow(xs, count, c + 1) == CountBelow(xs, count, c) + |Bucket(xs, count, c)|
  {
    if xs != [] {
      CountBelowStep(xs[..|xs| - 1], count, c);
    }
  }

  /** The buckets share out the elements: cutting them adds nothing. */
  lemma {:induction false} PerBucketSize<T(!new)>(xs: seq<T>, count: T -> nat, cut: seq<T> -> seq<T>, counts: nat)
    requires forall ys :: |cut(ys)| <= |ys|
    ensures |PerBucket(xs, count, cut, counts)| <= CountBelow(xs, count, counts)
  {
    if counts > 0 {
      PerBucketSize(xs, count, cut, counts - 1);
      CountBelowStep(xs, count, counts - 1);
    }
  }

  lemma {:induction false} PerBucketOrigin<T(!new)>(xs: seq<T>, count: T -> nat, cut: seq<T> -> seq<T>,
                                             counts: nat, x: T)
    returns (c: nat)
    requires x in PerBucket(xs, count, cut, counts)
    ensures c < counts && x in cut(Bucket(xs, count, c))
  {
    if x in PerBucket(xs, count, cut, counts - 1) {
      c := PerBucketOrigin(xs, count, cut, counts - 1, x);
    } else {
      c := counts - 1;
    }
  }

  lemma {:induction false} PerBucketHolds<T(!new)>(xs: seq<T>, count: T -> nat, cut: seq<T> -> seq<T>,
                                            counts: nat, c: nat, x: T)
    requires c < counts && x in cut(Bucket(xs, count, c))
    ensures x in PerBucket(xs, count, cut, counts)
  {
    if c < counts - 1 {
      PerBucketHolds(xs, count, cut, counts - 1, c, x);
    }
  }

  // ----- what a cut keeps -----

  lemma {:induction false} DedupBySorted<T(!new)>(xs: seq<T>, path: T -> seq<nat>, key: T -> Key)
    requires SortedBy(xs, key)
    ensures SortedBy(DedupBy(xs, path), key)
    decreases |xs|
  {
    hide KeyLe;
    if |xs| >= 2 {
      if path(xs[0]) == path(xs[1]) {
        DedupBySorted([xs[0]] + xs[2..], path, key);
      } else {
        DedupBySorted(xs[1..], path, key);
        DedupByKeeps(xs[1..], path, []);
        var rest := DedupBy(xs[1..], path);
        forall i | 0 <= i < |rest| ensures KeyLe(key(xs[0]), key(rest[i])) {
          assert rest[i] in xs[1..];
        }
        KeyLeTotal(key(xs[0]), key(xs[0]));
      }
    }
  }

  lemma {:induction false} BucketSorted<T(!new)>(xs: seq<T>, count: T -> nat, c: nat, key: T -> Key)
    requires SortedBy(xs, key)
    ensures SortedBy(Bucket(xs, count, c), key)
  {
    hide KeyLe;
    if xs != [] {
      var fewer, last := xs[..|xs| - 1], xs[|xs| - 1];
      BucketSorted(fewer, count, c, key);
      BucketMembers(fewer, count, c);
      var kept := Bucket(fewer, count, c);
      forall i | 0 <= i < |kept| ensures KeyLe(key(kept[i]), key(last)) {
        assert kept[i] in fewer;
      }
      KeyLeTotal(key(last), key(last));
    }
  }

  lemma {:induction false} BucketDistinct<T(!new)>(xs: seq<T>, count: T -> nat, c: nat, path: T -> seq<nat>)
    requires DistinctBy(xs, path)
    ensures DistinctBy(Bucket(xs, count, c), path)
  {
    if xs != [] {
      var n := |xs| - 1;
      BucketDistinct(xs[..n], count, c, path);
      BucketMembers(xs[..n], count, c);
      var kept := Bucket(xs[..n], count, c);
      forall i | 0 <= i < |kept| ensures path(kept[i]) != path(xs[n]) {
        assert kept[i] in xs[..n];
        var k :| 0 <= k < n && xs[k] == kept[i];
      }
    }
  }

  lemma {:induction false} DedupByAdjacent<T(!new)>(xs: seq<T>, path: T -> seq<nat>)
    ensures xs != [] ==> DedupBy(xs, path) != [] && DedupBy(xs, path)[0] == xs[0]
    ensures var r := DedupBy(xs, path); forall i {:trigger r[i]} | 0 < i < |r| :: path(r[i - 1]) != path(r[i])
    decreases |xs|
  {
    if |xs| >= 2 {
      if path(xs[0]) == path(xs[1]) {
        DedupByAdjacent([xs[0]] + xs[2..], path);
      } else {
        DedupByAdjacent(xs[1..], path);
      }
    }
  }

  /** In a list sorted by a key that spells the path, and where equal paths have
      equal keys, removing equal neighbours leaves each path once. */
  lemma DedupByDistinct<T(!new)>(xs: seq<T>, path: T -> seq<nat>, key: T -> Key)
    requires SortedBy(xs, key) && forall x | x in xs :: key(x).path == path(x)
    requires forall x, y | x in xs && y in xs && path(x) == path(y) :: key(x) == key(y)
    ensures DistinctBy(DedupBy(xs, path), path)
  {
    hide KeyLe;
    var r := DedupBy(xs, path);
    DedupBySorted(xs, path, key);
    DedupByAdjacent(xs, path);
    DedupByKeeps(xs, path, []);
    forall i, j | 0 <= i < j < |r| ensures path(r[i]) != path(r[j]) {
      if path(r[i]) == path(r[j]) {
        assert r[i] in xs && r[j] in xs && r[i + 1] in xs;
        assert KeyLe(key(r[i]), key(r[i + 1])) && KeyLe(key(r[i + 1]), key(r[j]));
        KeyLeTotal(key(r[i]), key(r[i + 1]));
        assert false;
      }
    }
  }

  lemma {:induction false} PerBucketDistinct<T(!new)>(xs: seq<T>, count: T -> nat, cut: seq<T> -> seq<T>,
                                               counts: nat, path: T -> seq<nat>)
    requires DistinctBy(xs, path)
    requires forall c: nat :: var b := Bucket(xs, count, c);
             DistinctBy(cut(b), path) && forall x | x in cut(b) :: x in b
    ensures DistinctBy(PerBucket(xs, count, cut, counts), path)
  {
    hide Bucket;
    if counts > 0 {
      var c := counts - 1;
      PerBucketDistinct(xs, count, cut, c, path);
      var before, last := PerBucket(xs, count, cut, c), cut(Bucket(xs, count, c));
      forall i, j | 0 <= i < |before| && 0 <= j < |last| ensures path(before[i]) != path(last[j]) {
        var b := PerBucketOrigin(xs, count, cut, c, before[i]);
        BucketMembers(xs, count, b);
        BucketMembers(xs, count, c);
        assert last[j] in last;
        SamePathSame(xs, path, before[i], last[j]);
      }
    }
  }

  lemma SamePathSame<T(!new)>(xs: seq<T>, path: T -> seq<nat>, x: T, y: T)
    requires DistinctBy(xs, path) && x in xs && y in xs
    ensures path(x) == path(y) ==> x == y
  {
    var i :| 0 <= i < |xs| && xs[i] == x;
    var j :| 0 <= j < |xs| && xs[j] == y;
    assert path(xs[i]) == path(xs[j]) ==> i == j;
  }

  lemma TakeIsPart<T(!new)>(xs: seq<T>, limit: nat, x: T)
    requires x in Take(xs, limit)
    ensures x in xs
  {
  }

  /** What a cut drops comes after everything it keeps, and it drops nothing
      while there is room. */
  lemma TakeKeepsLeast<T(!new)>(xs: seq<T>, limit: nat, key: T -> Key, kept: T, dropped: T)
    requires SortedBy(xs, key) && kept in Take(xs, limit) && dropped in xs && dropped !in Take(xs, limit)
    ensures KeyLe(key(kept), key(dropped)) && |Take(xs, limit)| == limit
  {
    hide KeyLe;
    var i :| 0 <= i < |Take(xs, limit)| && Take(xs, limit)[i] == kept;
    var j :| 0 <= j < |xs| && xs[j] == dropped;
    assert j >= limit;
  }
}
