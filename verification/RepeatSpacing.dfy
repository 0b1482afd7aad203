/** The fewest additions that any placement needs before the source tracks of
    a route clear their own repeat windows. */
module RepeatSpacing {
  import opened Repeats
  import opened Wrappers

  datatype Spacing = InvalidTrackIndex(index: nat) | Minimum(additions: nat)

  /** Additions placed in the gaps before source position `i`. */
  function Before(additions: seq<nat>, i: nat): nat
    requires i <= |additions|
  {
    if i == 0 then 0 else Before(additions, i - 1) + additions[i - 1]
  }

  lemma {:induction false} BeforeMonotone(additions: seq<nat>, i: nat, j: nat)
    requires i <= j <= |additions|
    ensures Before(additions, i) <= Before(additions, j)
  {
    if i < j {
      BeforeMonotone(additions, i, j - 1);
    }
  }

  lemma {:induction false} BeforeSuffix(additions: seq<nat>, from: nat, i: nat)
    requires from + i <= |additions|
    ensures Before(additions[from..], i) == Before(additions, from + i) - Before(additions, from)
  {
    if i > 0 {
      BeforeSuffix(additions, from, i - 1);
    }
  }

  lemma {:induction false} BeforePrefix(additions: seq<nat>, more: seq<nat>, i: nat)
    requires i <= |additions|
    ensures Before(additions + more, i) == Before(additions, i)
  {
    if i > 0 {
      BeforePrefix(additions, more, i - 1);
    }
  }

  function Total(additions: seq<nat>): nat {
    Before(additions, |additions|)
  }

  /** With these additions two source tracks stand far enough apart. */
  ghost predicate Clears(p: Policy, source: seq<nat>, additions: seq<nat>, l: nat, r: nat)
    requires |additions| + 1 == |source| && l < r < |source|
  {
    && Before(additions, l) <= Before(additions, r)
    && !TooClose(p, source[l], source[r], r - l + Before(additions, r) - Before(additions, l))
  }

  /** With these additions in its gaps the source route keeps its own windows. */
  ghost predicate Separates(p: Policy, source: seq<nat>, additions: seq<nat>) {
    && |additions| + 1 == |source|
    && forall l, r | 0 <= l < r < |source| :: Clears(p, source, additions, l, r)
  }

  /** Additions between two source positions that their shared window asks for. */
  function Required(p: Policy, source: seq<nat>, l: nat, r: nat): nat
    requires l < r < |source|
  {
    var window := SharedWindow(p, source[l], source[r]);
    if window > 0 then Minus(window + 1, r - l) else 0
  }

  lemma RequiredIsExact(p: Policy, source: seq<nat>, l: nat, r: nat, added: nat)
    requires l < r < |source|
    ensures !TooClose(p, source[l], source[r], r - l + added) <==> Required(p, source, l, r) <= added
  {
    SharedWindowDecides(p, source[l], source[r], r - l + added);
  }

  lemma SeparatesRequires(p: Policy, source: seq<nat>, additions: seq<nat>, l: nat, r: nat)
    requires Separates(p, source, additions)
    requires l < r < |source|
    ensures Before(additions, l) + Required(p, source, l, r) <= Before(additions, r)
  {
    assert Clears(p, source, additions, l, r);
    BeforeMonotone(additions, l, r);
    RequiredIsExact(p, source, l, r, Before(additions, r) - Before(additions, l));
  }

  predicate Ascending(table: seq<nat>) {
    forall k, l | 0 <= k <= l < |table| :: table[k] <= table[l]
  }

  /** The differences between neighbouring rows of an ascending table. */
  function Steps(table: seq<nat>): seq<nat>
    requires Ascending(table) && |table| > 0
  {
    seq(|table| - 1, k requires 0 <= k < |table| - 1 => Minus(table[k + 1], table[k]))
  }

  lemma {:induction false} StepsAddUp(cumulative: seq<nat>, i: nat)
    requires Ascending(cumulative)
    requires i < |cumulative| && cumulative[0] == 0
    ensures Before(Steps(cumulative), i) == cumulative[i]
  {
    if i > 0 {
      StepsAddUp(cumulative, i - 1);
    }
  }

  /** No placement that separates the source adds less than `value` before
      source position `r`. */
  ghost predicate LowerBound(p: Policy, source: seq<nat>, r: nat, value: nat)
    requires r < |source|
  {
    forall additions: seq<nat> | Separates(p, source, additions) :: value <= Before(additions, r)
  }

  lemma LowerBoundGrows(p: Policy, source: seq<nat>, l: nat, r: nat, value: nat)
    requires l < r < |source| && LowerBound(p, source, l, value)
    ensures LowerBound(p, source, r, value + Required(p, source, l, r))
    ensures LowerBound(p, source, r, value)
  {
    forall additions: seq<nat> | Separates(p, source, additions)
      ensures value + Required(p, source, l, r) <= Before(additions, r)
    {
      SeparatesRequires(p, source, additions, l, r);
    }
  }

  /** The table starts at 0 and meets every constraint between its rows. */
  ghost predicate Spaced(p: Policy, source: seq<nat>, table: seq<nat>) {
    && 0 < |table| <= |source| && table[0] == 0
    && Ascending(table)
    && (forall l, r | 0 <= l < r < |table| :: table[l] + Required(p, source, l, r) <= table[r])
  }

  /** A finished part of the table: spaced, and each row a lower bound. */
  ghost predicate Tabled(p: Policy, source: seq<nat>, table: seq<nat>) {
    && Spaced(p, source, table)
    && (forall r | 0 <= r < |table| :: LowerBound(p, source, r, table[r]))
  }

  lemma TabledStarts(p: Policy, source: seq<nat>)
    requires source != []
    ensures Tabled(p, source, [0])
  {
  }

  lemma TabledGrows(p: Policy, source: seq<nat>, table: seq<nat>, row: nat)
    requires Tabled(p, source, table) && |table| < |source|
    requires table[|table| - 1] <= row
    requires forall l | 0 <= l < |table| :: table[l] + Required(p, source, l, |table|) <= row
    requires LowerBound(p, source, |table|, row)
    ensures Tabled(p, source, table + [row])
  {
    hide Required, LowerBound;
    var grown := table + [row];
    forall l, r | 0 <= l < r < |grown| ensures grown[l] + Required(p, source, l, r) <= grown[r] {
      if r < |table| {
        assert table[l] + Required(p, source, l, r) <= table[r];
      }
    }
  }

  lemma SpacedClears(p: Policy, source: seq<nat>, table: seq<nat>, l: nat, r: nat)
    requires |table| == |source| && Ascending(table)
    requires l < r < |source| && table[0] == 0 && table[l] + Required(p, source, l, r) <= table[r]
    ensures Clears(p, source, Steps(table), l, r)
  {
    StepsAddUp(table, l);
    StepsAddUp(table, r);
    RequiredIsExact(p, source, l, r, table[r] - table[l]);
  }

  lemma SpacedSeparates(p: Policy, source: seq<nat>, table: seq<nat>)
    requires Spaced(p, source, table) && |table| == |source|
    ensures Separates(p, source, Steps(table))
    ensures Total(Steps(table)) == table[|table| - 1]
  {
    hide Clears, Required;
    forall l, r | 0 <= l < r < |source| ensures Clears(p, source, Steps(table), l, r) {
      SpacedClears(p, source, table, l, r);
    }
    StepsAddUp(table, |source| - 1);
  }

  lemma LowerBoundTotal(p: Policy, source: seq<nat>, value: nat)
    requires source != [] && LowerBound(p, source, |source| - 1, value)
    ensures forall additions: seq<nat> | Separates(p, source, additions) :: value <= Total(additions)
  {
    forall additions: seq<nat> | Separates(p, source, additions)
      ensures value <= Total(additions)
    {
      assert value <= Before(additions, |source| - 1);
    }
  }

  /** A full table answers the question: its steps separate the source and
      nothing smaller does. */
  lemma TableAnswers(p: Policy, source: seq<nat>, table: seq<nat>)
    requires Tabled(p, source, table) && |table| == |source|
    ensures Separates(p, source, Steps(table)) && Total(Steps(table)) == table[|table| - 1]
    ensures forall additions: seq<nat> | Separates(p, source, additions) ::
              table[|table| - 1] <= Total(additions)
  {
    hide Separates, LowerBound, Before;
    SpacedSeparates(p, source, table);
    LowerBoundTotal(p, source, table[|table| - 1]);
  }

  method FirstInvalidIndex(p: Policy, route: seq<nat>) returns (invalid: Option<nat>)
    ensures invalid == FirstInvalid(p, route)
  {
    assert route[0..] == route;
    for k := 0 to |route|
      invariant FirstInvalid(p, route) == FirstInvalid(p, route[k..])
    {
      assert route[k..][1..] == route[k + 1..];
      if route[k] >= |p.tracks| {
        return Some(route[k]);
      }
    }
    return None;
  }

  // ----- the minimum itself -----

  /** Some placement separates the source with `n` additions, none with fewer. */
  ghost predicate IsLeast(p: Policy, source: seq<nat>, n: nat) {
    && (exists additions: seq<nat> :: Separates(p, source, additions) && Total(additions) == n)
    && (forall additions: seq<nat> | Separates(p, source, additions) :: n <= Total(additions))
  }

  lemma WidestSeparates(p: Policy, source: seq<nat>, wide: nat)
    requires source != [] && wide == p.artistWindow + p.albumWindow + p.trackWindow
    ensures Separates(p, source, seq(|source| - 1, _ => wide))
  {
    hide SharedWindow, TooClose;
    var additions: seq<nat> := seq(|source| - 1, _ => wide);
    forall l, r | 0 <= l < r < |source| ensures Clears(p, source, additions, l, r) {
      BeforeMonotone(additions, l, r);
      BeforeMonotone(additions, l + 1, r);
      assert Before(additions, l + 1) == Before(additions, l) + wide;
      SharedWindowDecides(p, source[l], source[r], r - l + Before(additions, r) - Before(additions, l));
      SharedWindowBound(p, source[l], source[r]);
    }
  }

  lemma SharedWindowBound(p: Policy, a: nat, b: nat)
    ensures SharedWindow(p, a, b) <= p.artistWindow + p.albumWindow + p.trackWindow
  {
  }

  lemma {:induction false} LeastExists(p: Policy, source: seq<nat>, additions: seq<nat>)
    requires Separates(p, source, additions)
    ensures exists n: nat :: IsLeast(p, source, n)
    decreases Total(additions)
  {
    hide Separates, Before;
    if forall others: seq<nat> | Separates(p, source, others) :: Total(additions) <= Total(others) {
      assert IsLeast(p, source, Total(additions));
    } else {
      var fewer: seq<nat> :| Separates(p, source, fewer) && Total(fewer) < Total(additions);
      LeastExists(p, source, fewer);
    }
  }

  /** The fewest additions that separate the source. */
  ghost function LeastAdditions(p: Policy, source: seq<nat>): (n: nat)
    requires source != []
    ensures IsLeast(p, source, n)
  {
    WidestSeparates(p, source, p.artistWindow + p.albumWindow + p.trackWindow);
    LeastExists(p, source, seq(|source| - 1, _ => p.artistWindow + p.albumWindow + p.trackWindow));
    var n: nat :| IsLeast(p, source, n);
    n
  }

  lemma LeastIsOne(p: Policy, source: seq<nat>, n: nat, m: nat)
    requires IsLeast(p, source, n) && IsLeast(p, source, m)
    ensures n == m
  {
    hide Separates, Before;
  }

  /** Longest path over the difference constraints.  The result is both
      reached (by the steps of the table) and a bound on every placement. */
  method MinimumRepeatSpacingAdditions(p: Policy, source: seq<nat>)
    returns (result: Spacing, ghost placement: seq<nat>)
    ensures result.InvalidTrackIndex? ==> FirstInvalid(p, source) == Some(result.index)
    ensures result.Minimum? <==> ValidIndices(p, source)
    ensures result.Minimum? && source == [] ==> result.additions == 0
    ensures result.Minimum? && source != [] ==>
              Separates(p, source, placement) && Total(placement) == result.additions
    ensures result.Minimum? ==>
              forall additions: seq<nat> | Separates(p, source, additions) ::
                result.additions <= Total(additions)
    ensures result.Minimum? && source != [] ==> result.additions == LeastAdditions(p, source)
  {
    hide Separates, LowerBound, SharedWindow, Steps, Total, FirstInvalid, ValidIndices;
    var invalid := FirstInvalidIndex(p, source);
    if invalid.Some? {
      return InvalidTrackIndex(invalid.value), [];
    }
    if source == [] {
      return Minimum(0), [];
    }
    var cumulative := new nat[|source|](_ => 0);
    TabledStarts(p, source);
    assert cumulative[..1] == [0];
    for right := 1 to |source|
      invariant Tabled(p, source, cumulative[..right])
    {
      ghost var done := cumulative[..right];
      cumulative[right] := cumulative[right - 1];
      LowerBoundGrows(p, source, right - 1, right, done[right - 1]);
      for left := 0 to right
        invariant cumulative[..right] == done
        invariant done[right - 1] <= cumulative[right]
        invariant forall l | 0 <= l < left :: done[l] + Required(p, source, l, right) <= cumulative[right]
        invariant LowerBound(p, source, right, cumulative[right])
      {
        assert cumulative[left] == done[left];
        LowerBoundGrows(p, source, left, right, done[left]);
        var window := SharedWindow(p, source[left], source[right]);
        if window > 0 {
          var required := Minus(window + 1, right - left);
          cumulative[right] := Max(cumulative[right], cumulative[left] + required);
        }
      }
      TabledGrows(p, source, done, cumulative[right]);
      assert cumulative[..right + 1] == done + [cumulative[right]];
    }
    assert cumulative[..] == cumulative[..|source|];
    placement := Steps(cumulative[..]);
    TableAnswers(p, source, cumulative[..]);
    LeastIsOne(p, source, cumulative[|source| - 1], LeastAdditions(p, source));
    return Minimum(cumulative[|source| - 1]), placement;
  }
}
