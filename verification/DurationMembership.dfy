/** Bounded enumeration of duration-feasible memberships with an explicit
    stack.  A membership is followed through the ranks of its members in the
    deduplicated candidate list; results come in lexicographic rank order, a
    membership before its extensions. */
module DurationMembership {
  import opened Wrappers

  newtype u64 = x: int | 0 <= x < 0x1_0000_0000_0000_0000

  const U64_MAX: u64 := 0xffff_ffff_ffff_ffff

  datatype Candidate = Candidate(id: nat, durationMs: u64)

  datatype Bounds = Bounds(minimumMs: u64, maximumMs: u64, maximumTracks: nat)

  datatype MembershipSearch = MembershipSearch(memberships: seq<seq<nat>>, searchLimited: bool)

  function SaturatingAdd(a: u64, b: u64): (r: u64)
    ensures a as int + b as int <= U64_MAX as int ==> r as int == a as int + b as int
    ensures a as int + b as int > U64_MAX as int ==> r == U64_MAX
  {
    if a <= U64_MAX - b then a + b else U64_MAX
  }

  // ----- candidates -----

  predicate Kept(c: Candidate, earlier: seq<Candidate>) {
    c.durationMs > 0 && forall k | 0 <= k < |earlier| :: earlier[k].durationMs == 0 || earlier[k].id != c.id
  }

  /** The first candidate with a positive duration for each id, in order. */
  function Deduplicated(candidates: seq<Candidate>): (r: seq<Candidate>)
    ensures forall i | 0 <= i < |r| :: r[i].durationMs > 0 && r[i] in candidates
    ensures forall i, j | 0 <= i < j < |r| :: r[i].id != r[j].id
  {
    if candidates == [] then []
    else
      var earlier, last := candidates[..|candidates| - 1], candidates[|candidates| - 1];
      var r := Deduplicated(earlier);
      assert forall c :: c in earlier ==> c in candidates;
      if Kept(last, earlier) then
        assert forall i | 0 <= i < |r| :: r[i] in earlier;
        r + [last]
      else r
  }

  /** Candidate `i` is the first to name its id with a positive duration. */
  ghost predicate FirstMention(candidates: seq<Candidate>, i: nat)
    requires i < |candidates|
  {
    candidates[i].durationMs > 0 &&
    forall k | 0 <= k < i :: candidates[k].durationMs > 0 ==> candidates[k].id != candidates[i].id
  }

  /** Exactly the first candidate with a positive duration survives for each
      id; a mention without duration does not count as the first. */
  lemma {:induction false} DeduplicatedMeaning(candidates: seq<Candidate>, c: Candidate)
    ensures c in Deduplicated(candidates) <==>
            exists i :: 0 <= i < |candidates| && candidates[i] == c && FirstMention(candidates, i)
  {
    if candidates != [] {
      var n := |candidates| - 1;
      hide Kept, FirstMention;
      var earlier := candidates[..n];
      DeduplicatedMeaning(earlier, c);
      MentionsBefore(candidates, n);
      if c in Deduplicated(earlier) {
        var i :| 0 <= i < |earlier| && earlier[i] == c && FirstMention(earlier, i);
        assert candidates[i] == c && FirstMention(candidates, i);
      }
      if i :| 0 <= i < n && candidates[i] == c && FirstMention(candidates, i) {
        assert earlier[i] == c && FirstMention(earlier, i);
      }
    }
  }

  lemma MentionsBefore(candidates: seq<Candidate>, n: nat)
    requires n < |candidates|
    ensures forall i | 0 <= i < n :: FirstMention(candidates[..n], i) <==> FirstMention(candidates, i)
    ensures Kept(candidates[n], candidates[..n]) <==> FirstMention(candidates, n)
  {
    var earlier := candidates[..n];
    assert forall i | 0 <= i < n :: earlier[i] == candidates[i];
    if Kept(candidates[n], earlier) {
      forall k | 0 <= k < n && candidates[k].durationMs > 0 ensures candidates[k].id != candidates[n].id {
        assert earlier[k].id != candidates[n].id;
      }
    }
  }

  /** The survivors keep their relevance order: `at` places each in the list. */
  lemma {:induction false} DeduplicatedKeepsOrder(candidates: seq<Candidate>) returns (at: seq<nat>)
    ensures |at| == |Deduplicated(candidates)|
    ensures forall i | 0 <= i < |at| :: at[i] < |candidates| && candidates[at[i]] == Deduplicated(candidates)[i]
    ensures forall i, j | 0 <= i < j < |at| :: at[i] < at[j]
  {
    at := [];
    if candidates != [] {
      var n := |candidates| - 1;
      at := DeduplicatedKeepsOrder(candidates[..n]);
      if Kept(candidates[n], candidates[..n]) {
        at := at + [n];
      }
    }
  }

  // ----- memberships by rank -----

  /** Strictly ascending ranks into the candidate list. */
  ghost predicate Ranks(candidates: seq<Candidate>, ranks: seq<nat>) {
    && (forall i | 0 <= i < |ranks| :: ranks[i] < |candidates|)
    && forall i, j | 0 <= i < j < |ranks| :: ranks[i] < ranks[j]
  }

  /** Track ids of a membership, in rank order. */
  function Ids(candidates: seq<Candidate>, ranks: seq<nat>): (ids: seq<nat>)
    ensures |ids| == |ranks|
  {
    seq(|ranks|, i requires 0 <= i < |ranks| => if ranks[i] < |candidates| then candidates[ranks[i]].id else 0)
  }

  /** True total duration, not saturated. */
  function Duration(candidates: seq<Candidate>, ranks: seq<nat>): nat {
    if ranks == [] then 0
    else
      var last := ranks[|ranks| - 1];
      Duration(candidates, ranks[..|ranks| - 1]) +
      if last < |candidates| then candidates[last].durationMs as nat else 0
  }

  /** A membership inside the requested range that the caller accepts. */
  ghost predicate Eligible(candidates: seq<Candidate>, b: Bounds, accept: seq<nat> -> bool, ranks: seq<nat>) {
    && Ranks(candidates, ranks) && |ranks| <= b.maximumTracks
    && b.minimumMs as int <= Duration(candidates, ranks) <= b.maximumMs as int
    && accept(Ids(candidates, ranks))
  }

  /** Strict lexicographic order: a membership precedes its extensions. */
  ghost predicate Before(a: seq<nat>, b: seq<nat>) {
    || a < b
    || exists k :: 0 <= k < |a| && k < |b| && a[..k] == b[..k] && a[k] < b[k]
  }

  /** The order is strict and total, so an ordered list of memberships is unique. */
  lemma {:induction false} BeforeIsStrictOrder(a: seq<nat>, b: seq<nat>)
    ensures Before(a, b) || Before(b, a) || a == b
    ensures !(Before(a, b) && Before(b, a))
  {
    CommonPrefix(a, b, 0);
    if Before(a, b) && !(a < b) {
      var j :| 0 <= j < |a| && j < |b| && a[..j] == b[..j] && a[j] < b[j];
      forall i | 0 <= i < j ensures a[i] == b[i] {
        assert a[..j][i] == b[..j][i];
      }
      forall k | 0 <= k < |b| && k < |a| ensures !(b[..k] == a[..k] && b[k] < a[k]) {
        if k > j {
          assert b[..k][j] == b[j] && a[..k][j] == a[j];
        }
      }
    }
  }

  lemma {:induction false} CommonPrefix(a: seq<nat>, b: seq<nat>, k: nat)
    requires k <= |a| && k <= |b| && a[..k] == b[..k]
    ensures Before(a, b) || Before(b, a) || a == b
    decreases |a| - k
  {
    if k == |a| {
      assert a == a[..k] <= b;
    } else if k == |b| {
      assert b == b[..k] <= a;
    } else if a[k] == b[k] {
      assert a[..k + 1] == b[..k + 1];
      CommonPrefix(a, b, k + 1);
    }
  }

  /** A tail of memberships: `stem` followed by ranks from `from` on. */
  ghost predicate Extends(ranks: seq<nat>, stem: seq<nat>, from: nat) {
    stem < ranks && ranks[|stem|] >= from
  }

  /** Results are a prefix of the ordered list of eligible memberships:
      ascending, eligible, and nothing eligible is skipped before the last. */
  ghost predicate PrefixOfAll(candidates: seq<Candidate>, b: Bounds, accept: seq<nat> -> bool, results: seq<seq<nat>>) {
    && (forall i | 0 <= i < |results| :: Eligible(candidates, b, accept, results[i]))
    && (forall i, j | 0 <= i < j < |results| :: Before(results[i], results[j]))
    && forall ranks: seq<nat> | Eligible(candidates, b, accept, ranks) ::
         ranks in results || forall i | 0 <= i < |results| :: Before(results[i], ranks)
  }

  ghost predicate Complete(candidates: seq<Candidate>, b: Bounds, accept: seq<nat> -> bool, results: seq<seq<nat>>) {
    forall ranks: seq<nat> | Eligible(candidates, b, accept, ranks) :: ranks in results
  }

  // ----- durations -----

  /** Total of all candidates with rank in [low, high). */
  function RangeSum(candidates: seq<Candidate>, low: nat, high: nat): nat
    requires high <= |candidates|
  {
    if high <= low then 0 else RangeSum(candidates, low, high - 1) + candidates[high - 1].durationMs as nat
  }

  lemma {:induction false} RangeSumGrows(candidates: seq<Candidate>, low: nat, mid: nat, high: nat)
    requires mid <= high <= |candidates|
    ensures RangeSum(candidates, low, mid) <= RangeSum(candidates, low, high)
  {
    if mid < high {
      RangeSumGrows(candidates, low, mid, high - 1);
    }
  }

  lemma {:induction false} RangeSumFront(candidates: seq<Candidate>, low: nat, high: nat)
    requires low < high <= |candidates|
    ensures RangeSum(candidates, low, high) ==
            candidates[low].durationMs as nat + RangeSum(candidates, low + 1, high)
  {
    if low + 1 < high {
      RangeSumFront(candidates, low, high - 1);
    }
  }

  lemma RanksPrefix(candidates: seq<Candidate>, ranks: seq<nat>, k: nat)
    requires Ranks(candidates, ranks) && k <= |ranks|
    ensures Ranks(candidates, ranks[..k])
  {
  }

  /** Members added after `stem` add no more than all candidates from `from` on. */
  lemma {:induction false} DurationBound(candidates: seq<Candidate>, ranks: seq<nat>, stem: seq<nat>, from: nat)
    requires Ranks(candidates, ranks) && stem <= ranks
    requires |stem| < |ranks| ==> ranks[|stem|] >= from
    ensures Duration(candidates, stem) <= Duration(candidates, ranks)
    ensures Duration(candidates, ranks) <= Duration(candidates, stem) +
              if |stem| < |ranks| then RangeSum(candidates, from, ranks[|ranks| - 1] + 1) else 0
  {
    if stem != ranks {
      var n := |ranks| - 1;
      var shorter := ranks[..n];
      RanksPrefix(candidates, ranks, n);
      DurationBound(candidates, shorter, stem, from);
      if |stem| < n {
        RangeSumGrows(candidates, from, shorter[n - 1] + 1, ranks[n]);
      }
    }
  }

  // ----- the search state -----

  datatype Node = Node(index: nat, duration: u64, selected: seq<nat>)

  /** The stack with the ranks behind each node, whether the top was just
      entered, every membership visited so far, and the results by rank. */
  ghost predicate Stacked(c: seq<Candidate>, b: Bounds, stack: seq<Node>, stems: seq<seq<nat>>) {
    && |stems| == |stack|
    && (forall k | 0 <= k < |stack| :: NodeOk(c, b, stack[k], stems[k]))
    && forall l, k | 0 <= l < k < |stack| :: stems[l] < stems[k] && stems[k][|stems[l]|] < stack[l].index
  }

  ghost predicate NodeOk(c: seq<Candidate>, b: Bounds, node: Node, stem: seq<nat>) {
    && node.index <= |c| && Ranks(c, stem) && (forall i | 0 <= i < |stem| :: stem[i] < node.index)
    && |stem| <= b.maximumTracks
    && node.selected == Ids(c, stem) && node.duration as int == Duration(c, stem)
    && node.duration <= b.maximumMs
  }

  datatype Trace = Trace(stack: seq<Node>, stems: seq<seq<nat>>, entered: bool, visited: seq<seq<nat>>,
                         results: seq<seq<nat>>)

  ghost predicate PendsAt(t: Trace, k: nat, ranks: seq<nat>) {
    && k < |t.stack| && k < |t.stems|
    && (Extends(ranks, t.stems[k], t.stack[k].index) || (t.entered && k == |t.stack| - 1 && ranks == t.stems[k]))
  }

  ghost predicate Pending(t: Trace, ranks: seq<nat>) {
    exists k: nat :: PendsAt(t, k, ranks)
  }

  /** Everything visited comes before everything still pending. */
  ghost predicate InOrder(c: seq<Candidate>, t: Trace) {
    forall v, ranks: seq<nat> | v in t.visited && Ranks(c, ranks) && Pending(t, ranks) :: Before(v, ranks)
  }

  ghost predicate ResultsOk(c: seq<Candidate>, b: Bounds, accept: seq<nat> -> bool, t: Trace) {
    && (forall r | r in t.results :: r in t.visited && Eligible(c, b, accept, r))
    && (forall i, j | 0 <= i < j < |t.results| :: Before(t.results[i], t.results[j]))
    && (forall v | v in t.visited :: Ranks(c, v))
  }

  ghost predicate Covered(c: seq<Candidate>, b: Bounds, accept: seq<nat> -> bool, t: Trace) {
    forall ranks: seq<nat> | Eligible(c, b, accept, ranks) :: ranks in t.results || Pending(t, ranks)
  }

  /** The set of seen memberships holds only visited ones, and every stack
      node that was entered before and reaches the minimum. */
  ghost predicate SeenOk(c: seq<Candidate>, b: Bounds, t: Trace, seen: set<seq<nat>>) {
    && (forall ids | ids in seen :: exists v :: v in t.visited && Ids(c, v) == ids)
    && forall k | 0 <= k < |t.stack| && !(t.entered && k == |t.stack| - 1) ::
         t.stack[k].duration >= b.minimumMs ==> t.stack[k].selected in seen
  }

  ghost predicate Good(c: seq<Candidate>, b: Bounds, accept: seq<nat> -> bool, t: Trace, seen: set<seq<nat>>) {
    && Stacked(c, b, t.stack, t.stems) && InOrder(c, t) && ResultsOk(c, b, accept, t)
    && Covered(c, b, accept, t) && SeenOk(c, b, t, seen)
  }

  ghost predicate DistinctIds(c: seq<Candidate>) {
    forall i, j | 0 <= i < j < |c| :: c[i].id != c[j].id
  }

  lemma IdsInjective(c: seq<Candidate>, a: seq<nat>, b: seq<nat>)
    requires DistinctIds(c) && Ranks(c, a) && Ranks(c, b) && Ids(c, a) == Ids(c, b)
    ensures a == b
  {
    assert |a| == |b|;
    forall i | 0 <= i < |a| ensures a[i] == b[i] {
      assert Ids(c, a)[i] == c[a[i]].id && Ids(c, b)[i] == c[b[i]].id;
    }
  }

  lemma BeforeDiffers(a: seq<nat>, b: seq<nat>)
    requires Before(a, b)
    ensures a != b
  {
  }

  /** A prefix of the ordered list whatever still pends; the whole list once
      nothing does. */
  lemma GoodIsPrefix(c: seq<Candidate>, b: Bounds, accept: seq<nat> -> bool, t: Trace, seen: set<seq<nat>>)
    requires Good(c, b, accept, t, seen)
    ensures PrefixOfAll(c, b, accept, t.results)
    ensures (forall ranks: seq<nat> | Eligible(c, b, accept, ranks) :: !Pending(t, ranks)) ==>
              Complete(c, b, accept, t.results)
  {
    hide Stacked, Eligible, Before, Pending;
    forall ranks: seq<nat> | Eligible(c, b, accept, ranks) && ranks !in t.results
      ensures forall i | 0 <= i < |t.results| :: Before(t.results[i], ranks)
    {
      EligibleRanks(c, b, accept, ranks);
      assert Pending(t, ranks);
      forall i | 0 <= i < |t.results| ensures Before(t.results[i], ranks) {
        assert t.results[i] in t.results;
      }
    }
  }

  lemma EligibleRanks(c: seq<Candidate>, b: Bounds, accept: seq<nat> -> bool, ranks: seq<nat>)
    requires Eligible(c, b, accept, ranks)
    ensures Ranks(c, ranks)
  {
  }

  // ----- entering the top node -----

  /** The trace once the top node has been tested. */
  function Enter(t: Trace, record: bool): Trace
    requires t.stems != []
  {
    var stem := t.stems[|t.stems| - 1];
    if !t.entered then t
    else t.(entered := false, visited := t.visited + [stem],
            results := if record then t.results + [stem] else t.results)
  }

  lemma TopIsNew(c: seq<Candidate>, b: Bounds, accept: seq<nat> -> bool, t: Trace, seen: set<seq<nat>>)
    requires DistinctIds(c) && Good(c, b, accept, t, seen) && t.stack != []
    ensures var top := t.stack[|t.stack| - 1];
            top.duration >= b.minimumMs ==> (top.selected !in seen <==> t.entered)
  {
    hide Covered, Eligible, Before, Duration;
    var n := |t.stack| - 1;
    var stem := t.stems[n];
    assert NodeOk(c, b, t.stack[n], stem);
    if t.entered && t.stack[n].selected in seen {
      var v :| v in t.visited && Ids(c, v) == t.stack[n].selected;
      IdsInjective(c, v, stem);
      assert PendsAt(t, n, stem);
      assert Pending(t, stem);
      BeforeDiffers(v, stem);
      assert false;
    }
  }

  lemma EnterInOrder(c: seq<Candidate>, b: Bounds, t: Trace, record: bool)
    requires Stacked(c, b, t.stack, t.stems) && InOrder(c, t) && t.stack != [] && t.entered
    ensures InOrder(c, Enter(t, record))
  {
    hide Before, NodeOk;
    var n := |t.stack| - 1;
    var stem, next := t.stems[n], Enter(t, record);
    forall v, ranks: seq<nat> | v in next.visited && Ranks(c, ranks) && Pending(next, ranks)
      ensures Before(v, ranks)
    {
      var k: nat :| PendsAt(next, k, ranks);
      assert PendsAt(t, k, ranks);
      assert Pending(t, ranks);
      if v !in t.visited {
        assert v == stem;
        StemBefore(t.stems[k], t.stack[k].index, stem, ranks, k == n);
      }
    }
  }

  lemma StemBefore(low: seq<nat>, from: nat, stem: seq<nat>, ranks: seq<nat>, same: bool)
    requires Extends(ranks, low, from)
    requires if same then low == stem else low < stem && stem[|low|] < from
    ensures Before(stem, ranks)
  {
    if !same {
      var k := |low|;
      assert stem[..k] == low == ranks[..k];
      assert stem[k] < ranks[k];
    }
  }

  lemma EnterCovers(c: seq<Candidate>, b: Bounds, accept: seq<nat> -> bool, t: Trace, record: bool)
    requires Covered(c, b, accept, t) && t.stack != [] && |t.stems| == |t.stack| && t.entered
    requires record <==> Eligible(c, b, accept, t.stems[|t.stems| - 1])
    ensures Covered(c, b, accept, Enter(t, record))
  {
    hide Eligible, Extends;
    var n := |t.stack| - 1;
    var next := Enter(t, record);
    forall ranks: seq<nat> | Eligible(c, b, accept, ranks) ensures ranks in next.results || Pending(next, ranks) {
      if ranks !in t.results {
        var k: nat :| PendsAt(t, k, ranks);
        if ranks == t.stems[n] {
          assert ranks in next.results;
        } else {
          assert PendsAt(next, k, ranks);
        }
      }
    }
  }

  lemma EnterResults(c: seq<Candidate>, b: Bounds, accept: seq<nat> -> bool, t: Trace, record: bool)
    requires Stacked(c, b, t.stack, t.stems) && InOrder(c, t) && ResultsOk(c, b, accept, t)
    requires t.stack != [] && t.entered
    requires record ==> Eligible(c, b, accept, t.stems[|t.stems| - 1])
    ensures ResultsOk(c, b, accept, Enter(t, record))
  {
    hide Eligible, Extends, Before;
    var n := |t.stack| - 1;
    var stem, next := t.stems[n], Enter(t, record);
    assert NodeOk(c, b, t.stack[n], stem);
    assert PendsAt(t, n, stem);
    assert Pending(t, stem);
    forall i, j | 0 <= i < j < |next.results| ensures Before(next.results[i], next.results[j]) {
      if j == |t.results| {
        assert t.results[i] in t.visited;
      }
    }
  }

  /** Testing the top keeps the trace good; `record` says whether it became a result. */
  lemma EnterGood(c: seq<Candidate>, b: Bounds, accept: seq<nat> -> bool, t: Trace, seen: set<seq<nat>>, record: bool)
    requires DistinctIds(c) && Good(c, b, accept, t, seen) && t.stack != []
    requires var top := t.stack[|t.stack| - 1];
             record <==> t.entered && top.duration >= b.minimumMs && accept(top.selected)
    ensures var top := t.stack[|t.stack| - 1];
            Good(c, b, accept, Enter(t, record), if top.duration >= b.minimumMs then seen + {top.selected} else seen)
  {
    hide InOrder, Covered, ResultsOk, Extends, Before;
    var n := |t.stack| - 1;
    var top, stem, next := t.stack[n], t.stems[n], Enter(t, record);
    assert NodeOk(c, b, top, stem);
    if t.entered {
      EnterInOrder(c, b, t, record);
      EnterCovers(c, b, accept, t, record);
      EnterResults(c, b, accept, t, record);
      var more := if top.duration >= b.minimumMs then seen + {top.selected} else seen;
      forall ids | ids in more ensures exists v :: v in next.visited && Ids(c, v) == ids {
        if ids in seen {
          var v :| v in t.visited && Ids(c, v) == ids;
          assert v in next.visited;
        } else {
          assert stem in next.visited;
        }
      }
    } else if top.duration >= b.minimumMs {
      assert seen + {top.selected} == seen;
    }
  }

  // ----- leaving the top node -----

  function Drop(t: Trace): Trace
    requires t.stack != [] && |t.stems| == |t.stack|
  {
    t.(stack := t.stack[..|t.stack| - 1], stems := t.stems[..|t.stack| - 1], entered := false)
  }

  /** The branch without candidate `index`. */
  function Exclude(t: Trace): Trace
    requires t.stack != [] && |t.stems| == |t.stack|
  {
    var top := t.stack[|t.stack| - 1];
    t.(stack := t.stack[..|t.stack| - 1] + [Node(top.index + 1, top.duration, top.selected)], entered := false)
  }

  /** The branch with candidate `index`, on top of the one without it. */
  function Include(t: Trace, id: nat, next: u64): Trace
    requires t.stack != [] && |t.stems| == |t.stack|
  {
    var top, stem := t.stack[|t.stack| - 1], t.stems[|t.stack| - 1];
    var without := Exclude(t);
    without.(stack := without.stack + [Node(top.index + 1, next, top.selected + [id])],
             stems := t.stems + [stem + [top.index]], entered := true)
  }

  lemma PendingShrinks(c: seq<Candidate>, t: Trace, next: Trace)
    requires InOrder(c, t) && next.visited == t.visited
    requires forall ranks: seq<nat> | Ranks(c, ranks) && Pending(next, ranks) :: Pending(t, ranks)
    ensures InOrder(c, next)
  {
    hide Before, Pending, Ranks;
  }

  lemma DropGood(c: seq<Candidate>, b: Bounds, accept: seq<nat> -> bool, t: Trace, seen: set<seq<nat>>)
    requires Good(c, b, accept, t, seen) && t.stack != [] && !t.entered
    requires var n := |t.stack| - 1;
             forall ranks: seq<nat> | Eligible(c, b, accept, ranks) :: !Extends(ranks, t.stems[n], t.stack[n].index)
    ensures Good(c, b, accept, Drop(t), seen)
  {
    hide Eligible, Extends, Before, NodeOk, InOrder;
    var next := Drop(t);
    forall ranks: seq<nat> | Ranks(c, ranks) && Pending(next, ranks) ensures Pending(t, ranks) {
      var k: nat :| PendsAt(next, k, ranks);
      assert PendsAt(t, k, ranks);
    }
    PendingShrinks(c, t, next);
    forall ranks: seq<nat> | Eligible(c, b, accept, ranks) ensures ranks in next.results || Pending(next, ranks) {
      if ranks !in t.results {
        var k: nat :| PendsAt(t, k, ranks);
        assert PendsAt(next, k, ranks);
      }
    }
  }

  lemma ExtendsSplits(ranks: seq<nat>, stem: seq<nat>, from: nat)
    ensures Extends(ranks, stem, from) <==>
            Extends(ranks, stem, from + 1) || stem + [from] <= ranks
    ensures stem + [from] <= ranks <==> ranks == stem + [from] || stem + [from] < ranks
  {
    if stem < ranks && ranks[|stem|] == from {
      assert ranks[..|stem| + 1] == stem + [from];
    }
    if stem + [from] <= ranks {
      assert ranks[|stem|] == (stem + [from])[|stem|];
      assert ranks[..|stem|] == (stem + [from])[..|stem|] == stem;
    }
  }

  lemma ExcludeStacked(c: seq<Candidate>, b: Bounds, t: Trace)
    requires Stacked(c, b, t.stack, t.stems) && t.stack != [] && t.stack[|t.stack| - 1].index < |c|
    ensures Stacked(c, b, Exclude(t).stack, t.stems)
  {
    hide Duration, Ids;
    var n := |t.stack| - 1;
    assert NodeOk(c, b, t.stack[n], t.stems[n]);
    assert NodeOk(c, b, Exclude(t).stack[n], t.stems[n]);
    hide NodeOk;
  }

  lemma ExcludeGood(c: seq<Candidate>, b: Bounds, accept: seq<nat> -> bool, t: Trace, seen: set<seq<nat>>)
    requires Good(c, b, accept, t, seen) && t.stack != [] && !t.entered
    requires t.stack[|t.stack| - 1].index < |c|
    requires var n := |t.stack| - 1;
             forall ranks: seq<nat> | Eligible(c, b, accept, ranks) :: !(t.stems[n] + [t.stack[n].index] <= ranks)
    ensures Good(c, b, accept, Exclude(t), seen)
  {
    hide Eligible, Extends, Before, InOrder, Stacked, Ids;
    var n := |t.stack| - 1;
    assert |t.stems| == |t.stack| by { StackedSize(c, b, t.stack, t.stems); }
    var next, stem, from := Exclude(t), t.stems[n], t.stack[n].index;
    ExcludeStacked(c, b, t);
    forall ranks: seq<nat> | Ranks(c, ranks) && Pending(next, ranks) ensures Pending(t, ranks) {
      var k: nat :| PendsAt(next, k, ranks);
      ExtendsSplits(ranks, stem, from);
      assert PendsAt(t, k, ranks);
    }
    PendingShrinks(c, t, next);
    forall ranks: seq<nat> | Eligible(c, b, accept, ranks) ensures ranks in next.results || Pending(next, ranks) {
      if ranks !in t.results {
        var k: nat :| PendsAt(t, k, ranks);
        ExtendsSplits(ranks, stem, from);
        assert PendsAt(next, k, ranks);
      }
    }
  }

  lemma IncludedNode(c: seq<Candidate>, b: Bounds, node: Node, stem: seq<nat>, next: u64)
    requires NodeOk(c, b, node, stem) && node.index < |c| && |stem| < b.maximumTracks && next <= b.maximumMs
    requires next as int == node.duration as int + c[node.index].durationMs as int
    ensures NodeOk(c, b, Node(node.index + 1, next, node.selected + [c[node.index].id]), stem + [node.index])
    ensures NodeOk(c, b, Node(node.index + 1, node.duration, node.selected), stem)
  {
    var more := stem + [node.index];
    assert more[..|stem|] == stem;
    assert Ids(c, more) == Ids(c, stem) + [c[node.index].id];
  }

  lemma IncludeStacked(c: seq<Candidate>, b: Bounds, t: Trace, next: u64)
    requires Stacked(c, b, t.stack, t.stems) && t.stack != []
    requires var n := |t.stack| - 1;
             && t.stack[n].index < |c| && |t.stems[n]| < b.maximumTracks && next <= b.maximumMs
             && next as int == t.stack[n].duration as int + c[t.stack[n].index].durationMs as int
    ensures var grown := Include(t, c[t.stack[|t.stack| - 1].index].id, next);
            Stacked(c, b, grown.stack, grown.stems)
  {
    hide NodeOk;
    var n := |t.stack| - 1;
    var top, stem := t.stack[n], t.stems[n];
    var grown, more := Include(t, c[top.index].id, next), stem + [top.index];
    IncludedNode(c, b, top, stem, next);
    assert more[..|stem|] == stem;
    forall l, k | 0 <= l < k < |grown.stack|
      ensures grown.stems[l] < grown.stems[k] && grown.stems[k][|grown.stems[l]|] < grown.stack[l].index
    {
      if k == n + 1 && l < n {
        assert t.stems[l] < t.stems[n] && t.stems[n][|t.stems[l]|] < t.stack[l].index;
        assert more[|t.stems[l]|] == stem[|t.stems[l]|];
      }
    }
  }

  lemma IncludePending(c: seq<Candidate>, t: Trace, id: nat, next: u64, ranks: seq<nat>)
    requires t.stack != [] && |t.stems| == |t.stack| && !t.entered && Ranks(c, ranks)
    ensures Pending(Include(t, id, next), ranks) <==> Pending(t, ranks)
  {
    hide Extends;
    var n := |t.stack| - 1;
    var stem, from, grown := t.stems[n], t.stack[n].index, Include(t, id, next);
    ExtendsSplits(ranks, stem, from);
    PastStem(ranks, stem, from);
    if Pending(t, ranks) {
      var k: nat :| PendsAt(t, k, ranks);
      if k < n || Extends(ranks, stem, from + 1) {
        assert PendsAt(grown, k, ranks);
      } else {
        assert stem + [from] <= ranks;
        if stem + [from] < ranks {
          assert ranks[|stem|] == (stem + [from])[|stem|] && ranks[|stem|] < ranks[|stem| + 1];
        }
        assert PendsAt(grown, n + 1, ranks);
      }
    }
    if Pending(grown, ranks) {
      var k: nat :| PendsAt(grown, k, ranks);
      assert PendsAt(t, if k <= n then k else n, ranks);
    }
  }

  lemma PastStem(ranks: seq<nat>, stem: seq<nat>, from: nat)
    ensures Extends(ranks, stem + [from], from + 1) ==> stem + [from] < ranks
    ensures stem + [from] < ranks && ranks[|stem| + 1] > from ==> Extends(ranks, stem + [from], from + 1)
  {
  }

  lemma IncludeGood(c: seq<Candidate>, b: Bounds, accept: seq<nat> -> bool, t: Trace, seen: set<seq<nat>>, next: u64)
    requires Good(c, b, accept, t, seen) && t.stack != [] && !t.entered
    requires var n := |t.stack| - 1;
             && t.stack[n].index < |c| && |t.stems[n]| < b.maximumTracks && next <= b.maximumMs
             && next as int == t.stack[n].duration as int + c[t.stack[n].index].durationMs as int
    ensures Good(c, b, accept, Include(t, c[t.stack[|t.stack| - 1].index].id, next), seen)
  {
    hide Eligible, Extends, Before, InOrder, Stacked, Pending, Ranks;
    var n := |t.stack| - 1;
    assert |t.stems| == |t.stack| by { StackedSize(c, b, t.stack, t.stems); }
    var id := c[t.stack[n].index].id;
    var grown := Include(t, id, next);
    IncludeStacked(c, b, t, next);
    forall ranks: seq<nat> | Ranks(c, ranks) ensures Pending(grown, ranks) <==> Pending(t, ranks) {
      IncludePending(c, t, id, next, ranks);
    }
    PendingShrinks(c, t, grown);
    forall ranks: seq<nat> | Eligible(c, b, accept, ranks) ensures ranks in grown.results || Pending(grown, ranks) {
      EligibleRanks(c, b, accept, ranks);
    }
  }

  lemma StackedSize(c: seq<Candidate>, b: Bounds, stack: seq<Node>, stems: seq<seq<nat>>)
    requires Stacked(c, b, stack, stems)
    ensures |stems| == |stack|
    ensures forall k | 0 <= k < |stack| :: NodeOk(c, b, stack[k], stems[k])
  {
  }

  /** Saturated suffix totals: exact below the ceiling, the ceiling above it. */
  ghost predicate IsRemaining(c: seq<Candidate>, from: nat, value: u64)
    requires from <= |c|
  {
    value as int == if RangeSum(c, from, |c|) <= U64_MAX as int then RangeSum(c, from, |c|) else U64_MAX as int
  }

  lemma RemainingStep(c: seq<Candidate>, from: nat, value: u64)
    requires from < |c| && IsRemaining(c, from + 1, value)
    ensures IsRemaining(c, from, SaturatingAdd(value, c[from].durationMs))
  {
    RangeSumFront(c, from, |c|);
  }

  /** Suffix-sum pruning and the track limit cut off nothing eligible. */
  lemma PruningIsAdmissible(c: seq<Candidate>, b: Bounds,
                            accept: seq<nat> -> bool, node: Node, stem: seq<nat>, remaining: u64, ranks: seq<nat>)
    requires NodeOk(c, b, node, stem) && IsRemaining(c, node.index, remaining)
    requires node.index >= |c| || |stem| >= b.maximumTracks || SaturatingAdd(node.duration, remaining) < b.minimumMs
    requires Eligible(c, b, accept, ranks)
    ensures !Extends(ranks, stem, node.index)
  {
    hide RangeSum, Duration, Ids;
    if Extends(ranks, stem, node.index) {
      var last := ranks[|ranks| - 1];
      DurationBound(c, ranks, stem, node.index);
      RangeSumGrows(c, node.index, last + 1, |c|);
    }
  }

  /** Skipping the inclusion that overshoots loses nothing eligible. */
  lemma OvershootIsFinal(c: seq<Candidate>, b: Bounds,
                         accept: seq<nat> -> bool, node: Node, stem: seq<nat>, ranks: seq<nat>)
    requires NodeOk(c, b, node, stem) && node.index < |c|
    requires node.duration as int + c[node.index].durationMs as int > b.maximumMs as int
    requires Eligible(c, b, accept, ranks)
    ensures !(stem + [node.index] <= ranks)
  {
    if stem + [node.index] <= ranks {
      var grown := stem + [node.index];
      assert grown[..|stem|] == stem;
      DurationBound(c, ranks, grown, 0);
    }
  }

  // ----- the search -----

  lemma StartGood(c: seq<Candidate>, b: Bounds, accept: seq<nat> -> bool)
    ensures Good(c, b, accept, Trace([Node(0, 0, [])], [[]], true, [], []), {})
  {
    var t := Trace([Node(0, 0, [])], [[]], true, [], []);
    forall ranks: seq<nat> | Eligible(c, b, accept, ranks) ensures Pending(t, ranks) {
      assert PendsAt(t, 0, ranks);
    }
  }

  ghost function Labels(c: seq<Candidate>, results: seq<seq<nat>>): (ids: seq<seq<nat>>)
    ensures |ids| == |results|
    ensures forall i | 0 <= i < |results| :: ids[i] == Ids(c, results[i])
  {
    seq(|results|, i requires 0 <= i < |results| => Ids(c, results[i]))
  }

  lemma LabelsGrow(c: seq<Candidate>, results: seq<seq<nat>>, ranks: seq<nat>)
    ensures Labels(c, results + [ranks]) == Labels(c, results) + [Ids(c, ranks)]
  {
  }

  method Remaining(c: seq<Candidate>) returns (remaining: array<u64>)
    ensures remaining.Length == |c| + 1
    ensures forall i | 0 <= i <= |c| :: IsRemaining(c, i, remaining[i])
  {
    remaining := new u64[|c| + 1](_ => 0);
    var index := |c|;
    while index > 0
      invariant 0 <= index <= |c|
      invariant forall i | index <= i <= |c| :: IsRemaining(c, i, remaining[i])
    {
      index := index - 1;
      RemainingStep(c, index, remaining[index + 1]);
      remaining[index] := SaturatingAdd(remaining[index + 1], c[index].durationMs);
    }
  }

  // ----- the tree of visits -----

  /** A node of the search tree: the ranks chosen so far and the next index. */
  datatype Visit = Visit(stem: seq<nat>, index: nat)

  /** The node is expanded: candidates, tracks and duration are left over. */
  ghost predicate Alive(c: seq<Candidate>, b: Bounds, v: Visit) {
    && v.index < |c| && |v.stem| < b.maximumTracks
    && Duration(c, v.stem) + RangeSum(c, v.index, |c|) >= b.minimumMs as int
  }

  /** All nodes below one node in the order of the search: with the next
      candidate before without it. */
  ghost function Visits(c: seq<Candidate>, b: Bounds, v: Visit): (visits: seq<Visit>)
    ensures |visits| > 0 && visits[0] == v
    decreases Depth(c, v)
  {
    if !Alive(c, b, v) then [v]
    else
      var with, without := Visit(v.stem + [v.index], v.index + 1), Visit(v.stem, v.index + 1);
      [v] + (if Duration(c, with.stem) <= b.maximumMs as int then Visits(c, b, with) else []) + Visits(c, b, without)
  }

  function Depth(c: seq<Candidate>, v: Visit): nat {
    if v.index < |c| then |c| - v.index else 0
  }

  const ROOT := Visit([], 0)

  /** The ranks that a node inherits from the node above it. */
  ghost function Above(v: Visit): seq<nat> {
    if v.stem != [] && v.stem[|v.stem| - 1] + 1 == v.index then v.stem[..|v.stem| - 1] else v.stem
  }

  /** What the pruning rules leave of all pairs of ranks and a next index. */
  ghost predicate Visitable(c: seq<Candidate>, b: Bounds, v: Visit) {
    && v.index <= |c| && Ranks(c, v.stem) && (forall i | 0 <= i < |v.stem| :: v.stem[i] < v.index)
    && Duration(c, v.stem) <= b.maximumMs as int
    && (v.index > 0 ==>
          && |Above(v)| < b.maximumTracks
          && Duration(c, Above(v)) + RangeSum(c, v.index - 1, |c|) >= b.minimumMs as int)
  }

  ghost predicate Under(v: Visit, w: Visit) {
    && v.stem <= w.stem && v.index <= w.index
    && forall i | |v.stem| <= i < |w.stem| :: w.stem[i] >= v.index
  }

  lemma AboveChildren(v: Visit)
    requires forall i | 0 <= i < |v.stem| :: v.stem[i] < v.index
    ensures Above(Visit(v.stem, v.index + 1)) == v.stem
    ensures Above(Visit(v.stem + [v.index], v.index + 1)) == v.stem
  {
    assert (v.stem + [v.index])[..|v.stem|] == v.stem;
  }

  lemma ChildrenVisitable(c: seq<Candidate>, b: Bounds, v: Visit)
    requires Visitable(c, b, v) && Alive(c, b, v)
    ensures Visitable(c, b, Visit(v.stem, v.index + 1))
    ensures Duration(c, v.stem + [v.index]) <= b.maximumMs as int ==>
              Visitable(c, b, Visit(v.stem + [v.index], v.index + 1))
  {
    hide Duration, RangeSum, Above;
    AboveChildren(v);
    var more := v.stem + [v.index];
    assert Ranks(c, more);
  }

  lemma {:induction false} RangeSumJoins(c: seq<Candidate>, low: nat, mid: nat, high: nat)
    requires low <= mid <= high <= |c|
    ensures RangeSum(c, low, high) == RangeSum(c, low, mid) + RangeSum(c, mid, high)
  {
    if mid < high {
      RangeSumJoins(c, low, mid, high - 1);
    }
  }

  /** A visitable node further down keeps the nodes above it alive. */
  lemma AliveAbove(c: seq<Candidate>, b: Bounds, v: Visit, w: Visit)
    requires Visitable(c, b, v) && Visitable(c, b, w) && Under(v, w) && v != w
    ensures Alive(c, b, v) && v.index < w.index
  {
    hide Duration, RangeSum;
    if w.index == v.index {
      if |v.stem| < |w.stem| {
        assert false;
      }
    } else {
      var above, last := Above(w), w.index - 1;
      assert v.stem <= above;
      assert Ranks(c, above) && forall i | 0 <= i < |above| :: above[i] < last;
      DurationBound(c, above, v.stem, v.index);
      if |v.stem| < |above| {
        RangeSumGrows(c, v.index, above[|above| - 1] + 1, last);
      }
      RangeSumJoins(c, v.index, last, |c|);
    }
  }

  /** The tree below a node holds exactly the visitable nodes under it. */
  lemma {:induction false} VisitsBelow(c: seq<Candidate>, b: Bounds, v: Visit, w: Visit)
    requires Visitable(c, b, v)
    ensures w in Visits(c, b, v) <==> Visitable(c, b, w) && Under(v, w)
    decreases Depth(c, v)
  {
    hide Visitable, Duration, RangeSum;
    if Alive(c, b, v) {
      var with, without := Visit(v.stem + [v.index], v.index + 1), Visit(v.stem, v.index + 1);
      ChildrenVisitable(c, b, v);
      VisitsBelow(c, b, without, w);
      if Duration(c, with.stem) <= b.maximumMs as int {
        VisitsBelow(c, b, with, w);
      }
      UnderSplits(c, b, v, w);
    }
    if w != v && Visitable(c, b, w) && Under(v, w) {
      AliveAbove(c, b, v, w);
    }
  }

  /** Every other node under `v` is under one of its two children, ... */
  lemma UnderOneChild(c: seq<Candidate>, b: Bounds, v: Visit, w: Visit)
    requires Visitable(c, b, v) && Visitable(c, b, w) && Under(v, w) && w != v
    ensures Under(Visit(v.stem + [v.index], v.index + 1), w) || Under(Visit(v.stem, v.index + 1), w)
  {
    hide Duration, RangeSum, Above;
    AliveAbove(c, b, v, w);
    if |w.stem| > |v.stem| && w.stem[|v.stem|] == v.index {
      assert w.stem[..|v.stem| + 1] == v.stem + [v.index];
    }
  }

  /** ... never under both, and under the first only if it is within the maximum. */
  lemma UnderWith(c: seq<Candidate>, b: Bounds, v: Visit, w: Visit)
    requires Under(Visit(v.stem + [v.index], v.index + 1), w)
    ensures Under(v, w) && w != v && !Under(Visit(v.stem, v.index + 1), w)
    ensures Visitable(c, b, w) ==> Duration(c, v.stem + [v.index]) <= b.maximumMs as int
  {
    hide Duration, RangeSum, Above;
    var more := v.stem + [v.index];
    assert w.stem[|v.stem|] == more[|v.stem|] == v.index;
    assert w.stem[..|v.stem|] == more[..|v.stem|] == v.stem;
    if Visitable(c, b, w) {
      DurationBound(c, w.stem, more, 0);
    }
  }

  lemma UnderSplits(c: seq<Candidate>, b: Bounds, v: Visit, w: Visit)
    requires Visitable(c, b, v)
    ensures var with, without := Visit(v.stem + [v.index], v.index + 1), Visit(v.stem, v.index + 1);
            && (Visitable(c, b, w) && Under(v, w) && w != v ==> Under(with, w) || Under(without, w))
            && (Under(with, w) || Under(without, w) ==> Under(v, w) && w != v)
            && !(Under(with, w) && Under(without, w))
            && (Visitable(c, b, w) && Under(with, w) ==> Duration(c, with.stem) <= b.maximumMs as int)
  {
    hide Duration, Visitable;
    if Under(Visit(v.stem + [v.index], v.index + 1), w) {
      UnderWith(c, b, v, w);
    }
    if Visitable(c, b, w) && Under(v, w) && w != v {
      UnderOneChild(c, b, v, w);
    }
  }

  ghost predicate EachOnce(visits: seq<Visit>) {
    forall i, j | 0 <= i < j < |visits| :: visits[i] != visits[j]
  }

  lemma EachOnceJoins(v: Visit, front: seq<Visit>, back: seq<Visit>)
    requires EachOnce(front) && EachOnce(back) && v !in front && v !in back
    requires forall w | w in front :: w !in back
    ensures EachOnce([v] + front + back)
  {
    var all, n := [v] + front + back, |front|;
    forall i, j | 0 <= i < j < |all| ensures all[i] != all[j] {
      assert all[j] in if j <= n then front else back;
      if 0 < i <= n < j {
        assert all[i] in front;
      }
    }
  }

  lemma {:induction false} VisitsDistinct(c: seq<Candidate>, b: Bounds, v: Visit)
    requires Visitable(c, b, v)
    ensures EachOnce(Visits(c, b, v))
    decreases Depth(c, v)
  {
    hide Visitable, Duration, RangeSum, Under, EachOnce;
    if !Alive(c, b, v) {
      EachOnceJoins(v, [], []);
      assert [v] + [] + [] == [v];
    } else {
      var with, without := Visit(v.stem + [v.index], v.index + 1), Visit(v.stem, v.index + 1);
      var fits := Duration(c, with.stem) <= b.maximumMs as int;
      ChildrenVisitable(c, b, v);
      VisitsDistinct(c, b, without);
      if fits {
        VisitsDistinct(c, b, with);
      }
      var front, back := if fits then Visits(c, b, with) else [], Visits(c, b, without);
      hide Visits, Alive;
      forall w | w in front ensures w !in back {
        UnderSplits(c, b, v, w);
        VisitsBelow(c, b, without, w);
        VisitsBelow(c, b, with, w);
      }
      UnderSplits(c, b, v, v);
      VisitsBelow(c, b, without, v);
      if fits {
        VisitsBelow(c, b, with, v);
      }
      EachOnceJoins(v, front, back);
    }
  }

  /** The search tree is exactly what the pruning rules leave, each node once. */
  lemma VisitsMeaning(c: seq<Candidate>, b: Bounds)
    ensures forall v :: v in Visits(c, b, ROOT) <==> Visitable(c, b, v)
    ensures EachOnce(Visits(c, b, ROOT))
  {
    hide Visits;
    assert Visitable(c, b, ROOT);
    forall v ensures v in Visits(c, b, ROOT) <==> Visitable(c, b, v) {
      VisitsBelow(c, b, ROOT, v);
    }
    VisitsDistinct(c, b, ROOT);
  }

  lemma {:induction false} DistinctVisitsFit(visits: seq<Visit>, pool: set<Visit>)
    requires EachOnce(visits) && forall v | v in visits :: v in pool
    ensures |visits| <= |pool|
  {
    if visits != [] {
      var n := |visits| - 1;
      DistinctVisitsFit(visits[..n], pool - {visits[n]});
    }
  }

  /** A budget that covers every visitable pair covers the tree. */
  lemma BudgetCoversTree(c: seq<Candidate>, b: Bounds, pairs: set<Visit>)
    requires forall v | Visitable(c, b, v) :: v in pairs
    ensures |Visits(c, b, ROOT)| <= |pairs|
  {
    hide Visits, Visitable;
    VisitsMeaning(c, b);
    DistinctVisitsFit(Visits(c, b, ROOT), pairs);
  }

  function Pow2(n: nat): (r: nat)
    ensures r > 0
  {
    if n == 0 then 1 else 2 * Pow2(n - 1)
  }

  lemma {:induction false} TreeSize(c: seq<Candidate>, b: Bounds, v: Visit)
    ensures |Visits(c, b, v)| < Pow2(Depth(c, v) + 1)
    decreases Depth(c, v)
  {
    hide Duration, RangeSum;
    if Alive(c, b, v) {
      TreeSize(c, b, Visit(v.stem + [v.index], v.index + 1));
      TreeSize(c, b, Visit(v.stem, v.index + 1));
    }
  }

  /** The node at which a membership is tested: the first that holds it. */
  predicate Reached(v: Visit) {
    if v.stem == [] then v.index == 0 else v.stem[|v.stem| - 1] + 1 == v.index
  }

  /** The memberships that a list of visits delivers, in order. */
  ghost function Delivered(c: seq<Candidate>, b: Bounds, accept: seq<nat> -> bool, visits: seq<Visit>): seq<seq<nat>> {
    if visits == [] then []
    else
      var v := visits[|visits| - 1];
      Delivered(c, b, accept, visits[..|visits| - 1]) +
      if Reached(v) && Duration(c, v.stem) >= b.minimumMs as int && accept(Ids(c, v.stem)) then [v.stem] else []
  }

  lemma DeliveredStep(c: seq<Candidate>, b: Bounds, accept: seq<nat> -> bool, visits: seq<Visit>, v: Visit)
    ensures Delivered(c, b, accept, visits + [v]) ==
            Delivered(c, b, accept, visits) +
            if Reached(v) && Duration(c, v.stem) >= b.minimumMs as int && accept(Ids(c, v.stem)) then [v.stem] else []
  {
    assert (visits + [v])[..|visits|] == visits;
  }

  ghost function VisitAt(t: Trace, k: nat): Visit
    requires k < |t.stack| == |t.stems|
  {
    Visit(t.stems[k], t.stack[k].index)
  }

  /** What a stack still has to visit, from the top down to its first `n` nodes. */
  ghost function Unfolds(c: seq<Candidate>, b: Bounds, t: Trace, n: nat): seq<Visit>
    requires n <= |t.stack| == |t.stems|
  {
    if n == 0 then [] else Visits(c, b, VisitAt(t, n - 1)) + Unfolds(c, b, t, n - 1)
  }

  lemma {:induction false} UnfoldsSame(c: seq<Candidate>, b: Bounds, t: Trace, u: Trace, n: nat)
    requires n <= |t.stack| == |t.stems| && n <= |u.stack| == |u.stems|
    requires forall k | 0 <= k < n :: VisitAt(t, k) == VisitAt(u, k)
    ensures Unfolds(c, b, t, n) == Unfolds(c, b, u, n)
  {
    hide Visits;
    if n > 0 {
      UnfoldsSame(c, b, t, u, n - 1);
    }
  }

  /** Only an entered top is the first node of its membership. */
  ghost predicate Entries(t: Trace) {
    && |t.stems| == |t.stack| && (t.stack == [] ==> !t.entered)
    && forall k | 0 <= k < |t.stack| :: Reached(VisitAt(t, k)) <==> t.entered && k == |t.stack| - 1
  }

  function CheckedAdd(a: u64, b: u64): Option<u64> {
    if a <= U64_MAX - b then Some(a + b) else None
  }

  /** The trace once the top node has been expanded or pruned. */
  function Leave(c: seq<Candidate>, b: Bounds, t: Trace, remaining: u64): Trace
    requires t.stack != [] && |t.stems| == |t.stack|
  {
    var top := t.stack[|t.stack| - 1];
    if top.index >= |c| || |top.selected| >= b.maximumTracks ||
        SaturatingAdd(top.duration, remaining) < b.minimumMs then Drop(t)
    else
      var sum := CheckedAdd(top.duration, c[top.index].durationMs);
      if sum.Some? && sum.value <= b.maximumMs then Include(t, c[top.index].id, sum.value) else Exclude(t)
  }

  /** Leaving a node keeps the trace good, and the stack is the one left behind. */
  lemma LeaveGood(c: seq<Candidate>, b: Bounds, accept: seq<nat> -> bool, t: Trace, seen: set<seq<nat>>, remaining: u64)
    requires Good(c, b, accept, t, seen) && t.stack != [] && !t.entered
    requires t.stack[|t.stack| - 1].index <= |c| && |t.stems| == |t.stack|
    requires IsRemaining(c, t.stack[|t.stack| - 1].index, remaining)
    ensures var next := Leave(c, b, t, remaining);
            Good(c, b, accept, next, seen) && next.results == t.results && |next.stems| == |next.stack| &&
            next.stack == NextStack(c, b, t.stack, remaining)
  {
    hide Good, Duration, RangeSum, Ids;
    var n := |t.stack| - 1;
    var top := t.stack[n];
    GoodTop(c, b, accept, t, seen);
    if top.index >= |c| || |top.selected| >= b.maximumTracks || SaturatingAdd(top.duration, remaining) < b.minimumMs {
      forall ranks: seq<nat> | Eligible(c, b, accept, ranks) ensures !Extends(ranks, t.stems[n], top.index) {
        PruningIsAdmissible(c, b, accept, top, t.stems[n], remaining, ranks);
      }
      DropGood(c, b, accept, t, seen);
    } else {
      var sum := CheckedAdd(top.duration, c[top.index].durationMs);
      if sum.Some? && sum.value <= b.maximumMs {
        IncludeGood(c, b, accept, t, seen, sum.value);
      } else {
        forall ranks: seq<nat> | Eligible(c, b, accept, ranks) ensures !(t.stems[n] + [top.index] <= ranks) {
          OvershootIsFinal(c, b, accept, top, t.stems[n], ranks);
        }
        ExcludeGood(c, b, accept, t, seen);
      }
    }
  }

  /** The saturated test prunes exactly the nodes that are not alive. */
  lemma AliveIsTested(c: seq<Candidate>, b: Bounds, node: Node, stem: seq<nat>, remaining: u64)
    requires NodeOk(c, b, node, stem) && IsRemaining(c, node.index, remaining)
    ensures Alive(c, b, Visit(stem, node.index)) <==>
            !(node.index >= |c| || |node.selected| >= b.maximumTracks ||
              SaturatingAdd(node.duration, remaining) < b.minimumMs)
  {
    hide Duration, RangeSum;
  }

  lemma DurationStep(c: seq<Candidate>, stem: seq<nat>, x: nat)
    requires x < |c|
    ensures Duration(c, stem + [x]) == Duration(c, stem) + c[x].durationMs as nat
  {
    assert (stem + [x])[..|stem|] == stem;
  }

  /** Leaving a node takes it, and only it, off what is still to be visited. */
  lemma LeaveUnfolds(c: seq<Candidate>, b: Bounds, t: Trace, remaining: u64)
    requires t.stack != [] && |t.stems| == |t.stack|
    requires NodeOk(c, b, t.stack[|t.stack| - 1], t.stems[|t.stack| - 1])
    requires IsRemaining(c, t.stack[|t.stack| - 1].index, remaining)
    ensures var next := Leave(c, b, t, remaining);
            && |next.stems| == |next.stack|
            && Unfolds(c, b, t, |t.stack|) == [VisitAt(t, |t.stack| - 1)] + Unfolds(c, b, next, |next.stack|)
  {
    hide Alive, NodeOk, IsRemaining, Duration, RangeSum, Visits, Unfolds, SaturatingAdd, CheckedAdd;
    var n := |t.stack| - 1;
    var v, next := VisitAt(t, n), Leave(c, b, t, remaining);
    var with, without := Visit(v.stem + [v.index], v.index + 1), Visit(v.stem, v.index + 1);
    AliveIsTested(c, b, t.stack[n], t.stems[n], remaining);
    UnfoldsSame(c, b, t, next, n);
    UnfoldsStep(c, b, t, n);
    VisitsStep(c, b, v);
    if Alive(c, b, v) {
      AliveIndex(c, b, v);
      SumIsTested(c, b, t.stack[n], t.stems[n]);
      assert VisitAt(next, n) == without;
      UnfoldsStep(c, b, next, n);
      if Duration(c, with.stem) <= b.maximumMs as int {
        assert VisitAt(next, n + 1) == with;
        UnfoldsStep(c, b, next, n + 1);
      }
    }
  }

  lemma VisitsStep(c: seq<Candidate>, b: Bounds, v: Visit)
    ensures !Alive(c, b, v) ==> Visits(c, b, v) == [v]
    ensures var with, without := Visit(v.stem + [v.index], v.index + 1), Visit(v.stem, v.index + 1);
            Alive(c, b, v) ==>
              Visits(c, b, v) ==
              [v] + (if Duration(c, with.stem) <= b.maximumMs as int then Visits(c, b, with) else [])
              + Visits(c, b, without)
  {
  }

  lemma UnfoldsStep(c: seq<Candidate>, b: Bounds, t: Trace, n: nat)
    requires n < |t.stack| == |t.stems|
    ensures Unfolds(c, b, t, n + 1) == Visits(c, b, VisitAt(t, n)) + Unfolds(c, b, t, n)
  {
  }

  /** The checked sum passes exactly when the true total stays within the maximum. */
  lemma SumIsTested(c: seq<Candidate>, b: Bounds, node: Node, stem: seq<nat>)
    requires NodeOk(c, b, node, stem) && node.index < |c|
    ensures var sum := CheckedAdd(node.duration, c[node.index].durationMs);
            sum.Some? && sum.value <= b.maximumMs <==> Duration(c, stem + [node.index]) <= b.maximumMs as int
  {
    hide Duration;
    DurationStep(c, stem, node.index);
  }

  lemma AliveIndex(c: seq<Candidate>, b: Bounds, v: Visit)
    requires Alive(c, b, v)
    ensures v.index < |c|
  {
  }

  lemma NodeDuration(c: seq<Candidate>, b: Bounds, node: Node, stem: seq<nat>)
    requires NodeOk(c, b, node, stem)
    ensures node.duration as int == Duration(c, stem) && node.selected == Ids(c, stem)
    ensures forall i | 0 <= i < |stem| :: stem[i] < node.index
  {
  }

  lemma LeaveEntries(c: seq<Candidate>, b: Bounds, t: Trace, record: bool, remaining: u64)
    requires Entries(t) && t.stack != []
    requires NodeOk(c, b, t.stack[|t.stack| - 1], t.stems[|t.stack| - 1])
    ensures Entries(Leave(c, b, Enter(t, record), remaining))
  {
    hide Duration, Ids, Ranks, SaturatingAdd, CheckedAdd;
    var n := |t.stack| - 1;
    var entered := Enter(t, record);
    var next := Leave(c, b, entered, remaining);
    forall k | 0 <= k < |next.stack| ensures Reached(VisitAt(next, k)) <==> next.entered && k == |next.stack| - 1 {
      if k < n {
        assert VisitAt(next, k) == VisitAt(t, k);
      }
    }
  }

  lemma GoodTop(c: seq<Candidate>, b: Bounds, accept: seq<nat> -> bool, t: Trace, seen: set<seq<nat>>)
    requires Good(c, b, accept, t, seen) && t.stack != []
    ensures |t.stems| == |t.stack| && NodeOk(c, b, t.stack[|t.stack| - 1], t.stems[|t.stack| - 1])
  {
  }

  /** The stack after the top node has been expanded or pruned. */
  function NextStack(c: seq<Candidate>, b: Bounds, stack: seq<Node>, remaining: u64): seq<Node>
    requires stack != []
  {
    var rest, top := stack[..|stack| - 1], stack[|stack| - 1];
    if top.index >= |c| || |top.selected| >= b.maximumTracks ||
        SaturatingAdd(top.duration, remaining) < b.minimumMs then rest
    else
      var without := Node(top.index + 1, top.duration, top.selected);
      var sum := CheckedAdd(top.duration, c[top.index].durationMs);
      if sum.Some? && sum.value <= b.maximumMs then
        rest + [without] + [Node(top.index + 1, sum.value, top.selected + [c[top.index].id])]
      else rest + [without]
  }

  lemma NothingPending(c: seq<Candidate>, b: Bounds, accept: seq<nat> -> bool, t: Trace, seen: set<seq<nat>>)
    requires Good(c, b, accept, t, seen)
    requires t.stack == [] || (!t.entered && |t.stack| == 1 && t.stack[0].index >= |c|)
    ensures Complete(c, b, accept, t.results)
  {
    hide InOrder, ResultsOk, SeenOk, Duration;
    forall ranks: seq<nat> | Eligible(c, b, accept, ranks) ensures ranks in t.results {
      forall k: nat ensures !PendsAt(t, k, ranks) {
      }
      assert !Pending(t, ranks);
    }
  }

  lemma DeduplicatedIds(candidates: seq<Candidate>)
    ensures DistinctIds(Deduplicated(candidates))
  {
  }

  lemma TopIndex(c: seq<Candidate>, b: Bounds, node: Node, stem: seq<nat>)
    requires NodeOk(c, b, node, stem)
    ensures node.index <= |c| && node.selected == Ids(c, stem)
  {
  }

  lemma EnterLabels(c: seq<Candidate>, t: Trace, record: bool)
    requires t.stems != []
    ensures Labels(c, Enter(t, record).results) ==
            if t.entered && record then Labels(c, t.results) + [Ids(c, t.stems[|t.stems| - 1])]
            else Labels(c, t.results)
  {
    LabelsGrow(c, t.results, t.stems[|t.stems| - 1]);
  }

  /** The search spends its budget on the search tree in order: it delivers
      what the first `visited` nodes hold, and stops early only when the results
      are full. */
  ghost predicate BudgetSpent(c: seq<Candidate>, b: Bounds, nodeBudget: nat, maximumResults: nat,
                              accept: seq<nat> -> bool, ranks: seq<seq<nat>>, visited: nat, limited: bool) {
    var tree := Visits(c, b, ROOT);
    && visited <= nodeBudget && visited <= |tree|
    && ranks == Delivered(c, b, accept, tree[..visited])
    && (|ranks| < maximumResults ==>
          visited == (if nodeBudget < |tree| then nodeBudget else |tree|) && (limited <==> nodeBudget < |tree|))
    && (|ranks| >= maximumResults ==>
          && |ranks| == maximumResults && visited > 0
          && |Delivered(c, b, accept, tree[..visited - 1])| < maximumResults
          && (limited <==> visited < |tree| || tree[visited - 1].index < |c|))
  }

  /** What holds whenever `nodes` nodes have been visited. */
  ghost predicate Searching(c: seq<Candidate>, b: Bounds, accept: seq<nat> -> bool, t: Trace, seen: set<seq<nat>>,
                            nodes: nat) {
    var tree := Visits(c, b, ROOT);
    && Good(c, b, accept, t, seen) && Entries(t) && nodes <= |tree|
    && tree == tree[..nodes] + Unfolds(c, b, t, |t.stack|)
    && t.results == Delivered(c, b, accept, tree[..nodes])
  }

  lemma StartSearching(c: seq<Candidate>, b: Bounds, accept: seq<nat> -> bool)
    ensures Searching(c, b, accept, Trace([Node(0, 0, [])], [[]], true, [], []), {}, 0)
  {
    hide Visits, Good;
    var t := Trace([Node(0, 0, [])], [[]], true, [], []);
    StartGood(c, b, accept);
    assert VisitAt(t, 0) == ROOT;
    UnfoldsStep(c, b, t, 0);
  }

  /** The top of the stack is the next node of the tree. */
  lemma TopIsNext(c: seq<Candidate>, b: Bounds, accept: seq<nat> -> bool, t: Trace, seen: set<seq<nat>>, nodes: nat)
    requires DistinctIds(c) && Searching(c, b, accept, t, seen, nodes) && t.stack != []
    ensures |t.stems| == |t.stack| && NodeOk(c, b, t.stack[|t.stack| - 1], t.stems[|t.stack| - 1])
    ensures t.stack[|t.stack| - 1].index <= |c|
    ensures t.stack[|t.stack| - 1].selected == Ids(c, t.stems[|t.stack| - 1])
    ensures var top := t.stack[|t.stack| - 1];
            top.duration >= b.minimumMs ==> (top.selected !in seen <==> t.entered)
    ensures PrefixOfAll(c, b, accept, t.results)
    ensures var tree := Visits(c, b, ROOT);
            && nodes < |tree| && tree[nodes] == VisitAt(t, |t.stack| - 1)
            && tree[..nodes + 1] == tree[..nodes] + [tree[nodes]]
  {
    hide Visits, Good, NodeOk, PrefixOfAll, Delivered, Reached;
    GoodIsPrefix(c, b, accept, t, seen);
    GoodTop(c, b, accept, t, seen);
    TopIndex(c, b, t.stack[|t.stack| - 1], t.stems[|t.stack| - 1]);
    TopIsNew(c, b, accept, t, seen);
    UnfoldsStep(c, b, t, |t.stack| - 1);
    var tree := Visits(c, b, ROOT);
    var v := VisitAt(t, |t.stack| - 1);
    assert Visits(c, b, v)[0] == v;
    assert tree[nodes] == Unfolds(c, b, t, |t.stack|)[0];
  }

  /** One visited node, and what it delivers. */
  lemma VisitDelivers(c: seq<Candidate>, b: Bounds, accept: seq<nat> -> bool, t: Trace, seen: set<seq<nat>>,
                      nodes: nat, record: bool)
    requires DistinctIds(c) && Searching(c, b, accept, t, seen, nodes) && t.stack != []
    requires var top := t.stack[|t.stack| - 1];
             record <==> t.entered && top.duration >= b.minimumMs && accept(top.selected)
    ensures nodes < |Visits(c, b, ROOT)|
    ensures Enter(t, record).results == Delivered(c, b, accept, Visits(c, b, ROOT)[..nodes + 1])
    ensures Enter(t, record).results == if record then t.results + [t.stems[|t.stems| - 1]] else t.results
  {
    hide Delivered, Reached, Duration, Ids, Good, Visits, Unfolds;
    TopIsNext(c, b, accept, t, seen, nodes);
    DeliveredStep(c, b, accept, Visits(c, b, ROOT)[..nodes], VisitAt(t, |t.stack| - 1));
    NodeDuration(c, b, t.stack[|t.stack| - 1], t.stems[|t.stack| - 1]);
  }

  /** One node: tested, then expanded or pruned. */
  lemma VisitTop(c: seq<Candidate>, b: Bounds, accept: seq<nat> -> bool, t: Trace, seen: set<seq<nat>>, nodes: nat,
                 record: bool, remaining: u64)
    returns (next: Trace)
    requires DistinctIds(c) && Searching(c, b, accept, t, seen, nodes) && t.stack != []
    requires var top := t.stack[|t.stack| - 1];
             && (record <==> t.entered && top.duration >= b.minimumMs && accept(top.selected))
             && top.index <= |c| && IsRemaining(c, top.index, remaining)
    ensures var top := t.stack[|t.stack| - 1];
            Searching(c, b, accept, next, if top.duration >= b.minimumMs then seen + {top.selected} else seen,
                      nodes + 1)
    ensures next.results == if record then t.results + [t.stems[|t.stems| - 1]] else t.results
    ensures next.stack == NextStack(c, b, t.stack, remaining)
  {
    hide Delivered, Entries, Good, Visits, NodeOk, NextStack, IsRemaining;
    TopIsNext(c, b, accept, t, seen, nodes);
    var entered := Enter(t, record);
    VisitDelivers(c, b, accept, t, seen, nodes, record);
    EnterGood(c, b, accept, t, seen, record);
    LeaveGood(c, b, accept, entered, if t.stack[|t.stack| - 1].duration >= b.minimumMs
      then seen + {t.stack[|t.stack| - 1].selected} else seen, remaining);
    LeaveEntries(c, b, t, record, remaining);
    LeaveUnfolds(c, b, t, remaining);
    EnterUnfolds(c, b, t, record, remaining);
    next := Leave(c, b, entered, remaining);
  }

  lemma GoodSize(c: seq<Candidate>, b: Bounds, accept: seq<nat> -> bool, t: Trace, seen: set<seq<nat>>)
    requires Good(c, b, accept, t, seen)
    ensures |t.stems| == |t.stack|
  {
  }

  /** A search that stops before a node, or after the last one. */
  lemma StopsShort(c: seq<Candidate>, b: Bounds, accept: seq<nat> -> bool, t: Trace, seen: set<seq<nat>>, nodes: nat,
                   nodeBudget: nat, maximumResults: nat)
    requires Searching(c, b, accept, t, seen, nodes) && |t.results| < maximumResults && nodes <= nodeBudget
    requires t.stack != [] ==> nodes == nodeBudget && nodes < |Visits(c, b, ROOT)|
    ensures BudgetSpent(c, b, nodeBudget, maximumResults, accept, t.results, nodes, t.stack != [])
    ensures PrefixOfAll(c, b, accept, t.results)
    ensures t.stack == [] ==> Complete(c, b, accept, t.results)
    ensures t.stack != [] ==> nodeBudget < |Visits(c, b, ROOT)|
  {
    hide Visits, Good, Delivered, Entries, PrefixOfAll, Complete;
    GoodIsPrefix(c, b, accept, t, seen);
    if t.stack == [] {
      NothingPending(c, b, accept, t, seen);
      GoodSize(c, b, accept, t, seen);
      assert Unfolds(c, b, t, 0) == [];
    }
  }

  /** A search that stops because the node just tested fills the results. */
  lemma StopsFull(c: seq<Candidate>, b: Bounds, accept: seq<nat> -> bool, t: Trace, seen: set<seq<nat>>, nodes: nat,
                  nodeBudget: nat, maximumResults: nat)
    requires DistinctIds(c) && Searching(c, b, accept, t, seen, nodes) && t.stack != [] && nodes < nodeBudget
    requires var top := t.stack[|t.stack| - 1]; t.entered && top.duration >= b.minimumMs && accept(top.selected)
    requires |t.results| + 1 == maximumResults
    ensures var results, limited := Enter(t, true).results, |t.stack| > 1 || t.stack[|t.stack| - 1].index < |c|;
            && BudgetSpent(c, b, nodeBudget, maximumResults, accept, results, nodes + 1, limited)
            && PrefixOfAll(c, b, accept, results) && (!limited ==> Complete(c, b, accept, results))
  {
    hide Visits, Good, Delivered, PrefixOfAll, Complete, NodeOk;
    var top, entered := t.stack[|t.stack| - 1], Enter(t, true);
    TopIsNext(c, b, accept, t, seen, nodes);
    VisitDelivers(c, b, accept, t, seen, nodes, true);
    EnterGood(c, b, accept, t, seen, true);
    GoodIsPrefix(c, b, accept, entered, seen + {top.selected});
    if |t.stack| == 1 && top.index >= |c| {
      NothingPending(c, b, accept, entered, seen + {top.selected});
    }
    LastNode(c, b, t, |t.stack|);
  }

  /** Enumerates memberships in relevance order.  `ranks` follows the results
      through the deduplicated candidates, `visited` counts the nodes. */
  method FindMembershipsWithFilter(
      candidates: seq<Candidate>, b: Bounds, nodeBudget: nat, maximumResults: nat, accept: seq<nat> -> bool)
    returns (result: MembershipSearch, ghost ranks: seq<seq<nat>>, ghost visited: nat)
    ensures result.memberships == Labels(Deduplicated(candidates), ranks)
    ensures |result.memberships| <= maximumResults
    ensures maximumResults == 0 || b.minimumMs > b.maximumMs ==> ranks == [] && !result.searchLimited
    ensures maximumResults > 0 && b.minimumMs == 0 ==>
              !result.searchLimited && ranks == if accept([]) then [[]] else []
    ensures b.minimumMs > 0 && maximumResults > 0 ==>
              PrefixOfAll(Deduplicated(candidates), b, accept, ranks)
    ensures b.minimumMs > 0 && maximumResults > 0 && !result.searchLimited ==>
              Complete(Deduplicated(candidates), b, accept, ranks)
    ensures 0 < b.minimumMs <= b.maximumMs && maximumResults > 0 ==>
              BudgetSpent(Deduplicated(candidates), b, nodeBudget, maximumResults, accept, ranks, visited,
                          result.searchLimited)
    ensures result.searchLimited && |result.memberships| < maximumResults ==> visited == nodeBudget
    ensures forall pairs: set<Visit> |
              (forall v | Visitable(Deduplicated(candidates), b, v) :: v in pairs) && |pairs| <= nodeBudget ::
              result.searchLimited ==> |result.memberships| == maximumResults
    ensures result.searchLimited && nodeBudget >= Pow2(|Deduplicated(candidates)| + 1) - 1 ==>
              |result.memberships| == maximumResults
  {
    hide Searching, Deduplicated, Eligible, PrefixOfAll, Complete, Pow2, NodeOk, NextStack, Labels, IsRemaining,
      Visits, Visitable, BudgetSpent;
    var c := Deduplicated(candidates);
    if b.minimumMs > b.maximumMs || maximumResults == 0 {
      NothingInEmptyRange(c, b, accept);
      return MembershipSearch([], false), [], 0;
    }
    if b.minimumMs == 0 {
      if accept([]) {
        return MembershipSearch([[]], false), [[]], 0;
      }
      return MembershipSearch([], false), [], 0;
    }
    DeduplicatedIds(candidates);
    var remaining := Remaining(c);
    var stack := [Node(0, 0, [])];
    var seen: set<seq<nat>> := {};
    var memberships: seq<seq<nat>> := [];
    ghost var t := Trace(stack, [[]], true, [], []);
    StartSearching(c, b, accept);
    BudgetBounds(c, b, nodeBudget);
    var nodes := 0;
    while stack != []
      invariant forall i | 0 <= i <= |c| :: IsRemaining(c, i, remaining[i])
      invariant t.stack == stack && Searching(c, b, accept, t, seen, nodes)
      invariant memberships == Labels(c, t.results) && |memberships| < maximumResults
      invariant 0 <= nodes <= nodeBudget
      decreases nodeBudget - nodes
    {
      TopIsNext(c, b, accept, t, seen, nodes);
      if nodes >= nodeBudget {
        StopsShort(c, b, accept, t, seen, nodes, nodeBudget, maximumResults);
        return MembershipSearch(memberships, true), t.results, nodes;
      }
      var top := stack[|stack| - 1];
      nodes := nodes + 1;
      ghost var record := t.entered && top.duration >= b.minimumMs && accept(top.selected);
      ghost var next := VisitTop(c, b, accept, t, seen, nodes - 1, record, remaining[top.index]);
      EnterLabels(c, t, record);
      ghost var before := seen;
      if top.duration >= b.minimumMs && top.selected !in seen {
        seen := seen + {top.selected};
        if accept(top.selected) {
          memberships := memberships + [top.selected];
          if |memberships| >= maximumResults {
            var limited := |stack| > 1 || top.index < |c|;
            StopsFull(c, b, accept, t, before, nodes - 1, nodeBudget, maximumResults);
            return MembershipSearch(memberships, limited), Enter(t, true).results, nodes;
          }
        }
      } else if top.duration >= b.minimumMs {
        assert seen + {top.selected} == seen;
      }
      t := next;
      stack := NextStack(c, b, stack, remaining[top.index]);
    }
    StopsShort(c, b, accept, t, seen, nodes, nodeBudget, maximumResults);
    return MembershipSearch(memberships, false), t.results, nodes;
  }

  /** A node with nothing behind it ends the tree, unless it still has a candidate. */
  lemma LastNode(c: seq<Candidate>, b: Bounds, t: Trace, n: nat)
    requires 0 < n == |t.stack| == |t.stems|
    ensures n > 1 ==> |Unfolds(c, b, t, n)| > 1
    ensures n == 1 && t.stack[0].index >= |c| ==> |Unfolds(c, b, t, n)| == 1
  {
    hide Alive;
    var v := VisitAt(t, n - 1);
    if n > 1 {
      assert Unfolds(c, b, t, n - 1) == Visits(c, b, VisitAt(t, n - 2)) + Unfolds(c, b, t, n - 2);
    } else if v.index >= |c| {
      NotAlive(c, b, v);
      assert Unfolds(c, b, t, 1) == Visits(c, b, v) + Unfolds(c, b, t, 0);
    }
  }

  lemma NotAlive(c: seq<Candidate>, b: Bounds, v: Visit)
    requires v.index >= |c|
    ensures !Alive(c, b, v)
  {
  }

  /** Testing the top does not change what follows. */
  lemma EnterUnfolds(c: seq<Candidate>, b: Bounds, t: Trace, record: bool, remaining: u64)
    requires t.stack != [] && |t.stems| == |t.stack|
    ensures var left, entered := Leave(c, b, t, remaining), Leave(c, b, Enter(t, record), remaining);
            && |left.stems| == |left.stack| && |entered.stems| == |entered.stack|
            && left.stack == entered.stack
            && Unfolds(c, b, left, |left.stack|) == Unfolds(c, b, entered, |entered.stack|)
  {
    hide SaturatingAdd, CheckedAdd;
    var left, entered := Leave(c, b, t, remaining), Leave(c, b, Enter(t, record), remaining);
    UnfoldsSame(c, b, left, entered, |left.stack|);
  }

  lemma BudgetBounds(c: seq<Candidate>, b: Bounds, nodeBudget: nat)
    ensures |Visits(c, b, ROOT)| < Pow2(|c| + 1)
    ensures forall pairs: set<Visit> | (forall v | Visitable(c, b, v) :: v in pairs) && |pairs| <= nodeBudget ::
              |Visits(c, b, ROOT)| <= nodeBudget
  {
    hide Visits, Visitable, Pow2;
    TreeSize(c, b, ROOT);
    forall pairs: set<Visit> | (forall v | Visitable(c, b, v) :: v in pairs) && |pairs| <= nodeBudget
      ensures |Visits(c, b, ROOT)| <= nodeBudget
    {
      BudgetCoversTree(c, b, pairs);
    }
  }

  lemma NothingInEmptyRange(c: seq<Candidate>, b: Bounds, accept: seq<nat> -> bool)
    ensures PrefixOfAll(c, b, accept, [])
    ensures b.minimumMs > b.maximumMs ==> Complete(c, b, accept, [])
  {
  }
}