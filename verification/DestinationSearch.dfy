/** The search over both boundaries of a destination block: what it offers, as
    functions of its path searches, and the methods that compute it. */
module DestinationSearch {
  import opened Wrappers
  import opened Repeats
  import opened Ordering
  import opened AnchoredPath
  import opened AnchoredSearch
  import opened GapPlans
  import opened DestinationBlock

  // ----- the options of a request, as functions -----

  /** What one boundary search offers. */
  function Bridged(r: Request, ignored: nat): seq<PathOption> {
    match SearchOf(r, ignored)
    case Rejected(_) => []
    case Found(options) => options
  }

  function WaysIn(d: Destination, original: seq<nat>, plan: BlockPlan): seq<PathOption>
    requires PlanFits(original, plan) && GapsMatch(d, original, plan)
  {
    Bridged(OutwardRequest(d, original, plan), 0)
  }

  function WaysBack(d: Destination, original: seq<nat>, plan: BlockPlan, outward: seq<nat>): seq<PathOption>
    requires PlanFits(original, plan) && GapsMatch(d, original, plan) && plan.rejoinsQueue
  {
    Bridged(ReturnRequest(d, original, plan, outward), Context(d, original, plan))
  }

  /** The combinations of a way in with the ways back that pass the checks. */
  function Passing(d: Destination, original: seq<nat>, plan: BlockPlan, outward: PathOption,
                   ways: seq<PathOption>): seq<DestinationOption>
    requires PlanFits(original, plan)
  {
    if ways == [] then []
    else
      var n := |ways| - 1;
      var before, o := Passing(d, original, plan, outward, ways[..n]), Combined(outward, ways[n]);
      if Passes(d, original, plan, o.route) then before + [o] else before
  }

  /** The options that one way in leads to. */
  function OptionsBy(d: Destination, original: seq<nat>, plan: BlockPlan, outward: PathOption): seq<DestinationOption>
    requires PlanFits(original, plan) && GapsMatch(d, original, plan)
  {
    if plan.rejoinsQueue then Passing(d, original, plan, outward, WaysBack(d, original, plan, outward.intermediates))
    else
      var o := Straight(original, plan, outward);
      if Passes(d, original, plan, o.route) then [o] else []
  }

  function OptionsOf(d: Destination, original: seq<nat>, plan: BlockPlan,
                     outwards: seq<PathOption>): seq<DestinationOption>
    requires PlanFits(original, plan) && GapsMatch(d, original, plan)
  {
    if outwards == [] then []
    else
      var n := |outwards| - 1;
      OptionsOf(d, original, plan, outwards[..n]) + OptionsBy(d, original, plan, outwards[n])
  }

  /** All options, before the best of each count is taken. */
  function AllOptions(d: Destination, original: seq<nat>, plan: BlockPlan): seq<DestinationOption>
    requires PlanFits(original, plan) && GapsMatch(d, original, plan)
  {
    OptionsOf(d, original, plan, WaysIn(d, original, plan))
  }

  lemma {:induction false} PassingMembers(d: Destination, original: seq<nat>, plan: BlockPlan, outward: PathOption,
                                          ways: seq<PathOption>)
    requires PlanFits(original, plan)
    ensures forall o :: o in Passing(d, original, plan, outward, ways) <==>
              exists way :: way in ways && o == Combined(outward, way) && Passes(d, original, plan, o.route)
  {
    hide Passes, Combined;
    if ways != [] {
      var n := |ways| - 1;
      PassingMembers(d, original, plan, outward, ways[..n]);
      assert ways == ways[..n] + [ways[n]];
    }
  }

  lemma {:induction false} OptionsOfMembers(d: Destination, original: seq<nat>, plan: BlockPlan,
                                            outwards: seq<PathOption>)
    requires PlanFits(original, plan) && GapsMatch(d, original, plan)
    ensures forall o :: o in OptionsOf(d, original, plan, outwards) <==>
              exists outward :: outward in outwards && o in OptionsBy(d, original, plan, outward)
  {
    hide OptionsBy, GapsMatch;
    if outwards != [] {
      var n := |outwards| - 1;
      OptionsOfMembers(d, original, plan, outwards[..n]);
      assert outwards == outwards[..n] + [outwards[n]];
    }
  }

  /** A limit drops a path back after this way in. */
  ghost predicate ReturnCut(d: Destination, original: seq<nat>, plan: BlockPlan, outward: PathOption)
    requires PlanFits(original, plan) && GapsMatch(d, original, plan) && plan.rejoinsQueue
  {
    !SearchUncut(ReturnRequest(d, original, plan, outward.intermediates), Context(d, original, plan))
  }

  ghost predicate ReturnTrimmed(d: Destination, original: seq<nat>, plan: BlockPlan, outward: PathOption)
    requires PlanFits(original, plan) && GapsMatch(d, original, plan) && plan.rejoinsQueue
  {
    SearchTrimmed(ReturnRequest(d, original, plan, outward.intermediates), Context(d, original, plan))
  }

  /** No limit drops a path of either boundary. */
  ghost predicate BridgesUncut(d: Destination, original: seq<nat>, plan: BlockPlan)
    requires PlanFits(original, plan) && GapsMatch(d, original, plan)
  {
    && SearchUncut(OutwardRequest(d, original, plan), 0)
    && (plan.rejoinsQueue ==>
          forall outward | outward in WaysIn(d, original, plan) :: !ReturnCut(d, original, plan, outward))
  }

  /** Some count of a boundary has more paths than the one that is kept. */
  ghost predicate BridgesTrimmed(d: Destination, original: seq<nat>, plan: BlockPlan)
    requires PlanFits(original, plan) && GapsMatch(d, original, plan)
  {
    || SearchTrimmed(OutwardRequest(d, original, plan), 0)
    || (plan.rejoinsQueue &&
        exists outward :: outward in WaysIn(d, original, plan) && ReturnTrimmed(d, original, plan, outward))
  }

  lemma OptionsByAreGood(d: Destination, original: seq<nat>, plan: BlockPlan, outward: PathOption)
    requires PlanFits(original, plan) && GapsMatch(d, original, plan)
    requires GoodOption(OutwardRequest(d, original, plan), 0, outward)
    ensures AllDestinations(d, original, plan, OptionsBy(d, original, plan, outward))
  {
    hide GoodOption, GoodDestination, Passes, WayIn, WayBack, ReturnRequest, Lead, BlockOf, Tail, SearchOf, Bridged,
      Passing;
    OutwardIsWayIn(d, original, plan, outward);
    if plan.rejoinsQueue {
      var ways := WaysBack(d, original, plan, outward.intermediates);
      PassingMembers(d, original, plan, outward, ways);
      forall o | o in OptionsBy(d, original, plan, outward) ensures GoodDestination(d, original, plan, o) {
        var way :| way in ways && o == Combined(outward, way) && Passes(d, original, plan, o.route);
        BridgedAreGood(ReturnRequest(d, original, plan, outward.intermediates), Context(d, original, plan), way);
        ReturningIsWayBack(d, original, plan, outward, way);
        TwoBoundariesAreGood(d, original, plan, outward, way, o);
      }
    } else {
      StraightPasses(d, original, plan, outward);
    }
  }

  lemma StraightPasses(d: Destination, original: seq<nat>, plan: BlockPlan, outward: PathOption)
    requires PlanFits(original, plan) && GapsMatch(d, original, plan) && !plan.rejoinsQueue
    requires GoodOption(OutwardRequest(d, original, plan), 0, outward)
    ensures Passes(d, original, plan, Straight(original, plan, outward).route) ==>
              GoodDestination(d, original, plan, Straight(original, plan, outward))
  {
    hide GoodOption, GoodDestination, Passes;
    if Passes(d, original, plan, Straight(original, plan, outward).route) {
      OneBoundaryIsGood(d, original, plan, outward, Straight(original, plan, outward));
    }
  }

  lemma BridgedAreGood(r: Request, ignored: nat, o: PathOption)
    requires o in Bridged(r, ignored)
    ensures Validate(r).None? && GoodOption(r, ignored, o) && SearchOf(r, ignored) == Found(Bridged(r, ignored))
  {
    hide Validate, GoodOption, OptionsBelow, StructuralBound;
    SearchAnswers(r, ignored);
  }

  /** Untrimmed and uncut, one way in leads to every good option that enters so. */
  lemma OptionsByCover(d: Destination, original: seq<nat>, plan: BlockPlan, outward: PathOption)
    requires PlanFits(original, plan) && GapsMatch(d, original, plan) && OriginalsOwned(d, original)
    requires GoodOption(OutwardRequest(d, original, plan), 0, outward)
    requires plan.rejoinsQueue ==>
               && Validate(ReturnRequest(d, original, plan, outward.intermediates)).None?
               && !ReturnCut(d, original, plan, outward) && !ReturnTrimmed(d, original, plan, outward)
    ensures Covered(d, original, plan, outward, OptionsBy(d, original, plan, outward))
  {
    hide GoodVia, Passes, GoodOption, Feasible, OriginalsOwned, WayBack, ReturnRequest, OutwardRequest, SearchOf,
      SearchUncut, SearchTrimmed, Validate, Bridged, Passing, Combined;
    OutwardIsWayIn(d, original, plan, outward);
    var xs := outward.intermediates;
    if plan.rejoinsQueue {
      PassingMembers(d, original, plan, outward, WaysBack(d, original, plan, xs));
    }
    forall back: seq<nat>, o | GoodVia(d, original, plan, xs, back, o)
      ensures o in OptionsBy(d, original, plan, outward)
    {
      GoodPasses(d, original, plan, xs, back, o);
      if plan.rejoinsQueue {
        var way := WayBackOf(d, original, plan, outward, back, o);
        assert way in WaysBack(d, original, plan, xs) && o == Combined(outward, way);
      } else {
        StraightIsGood(d, original, plan, outward, back, o);
      }
    }
  }

  lemma WayBackOf(d: Destination, original: seq<nat>, plan: BlockPlan, outward: PathOption, back: seq<nat>,
                  o: DestinationOption)
    returns (way: PathOption)
    requires PlanFits(original, plan) && GapsMatch(d, original, plan) && OriginalsOwned(d, original) &&
             plan.rejoinsQueue
    requires WayIn(d, original, plan, outward) && GoodVia(d, original, plan, outward.intermediates, back, o)
    requires Validate(ReturnRequest(d, original, plan, outward.intermediates)).None?
    requires !ReturnCut(d, original, plan, outward) && !ReturnTrimmed(d, original, plan, outward)
    ensures way in WaysBack(d, original, plan, outward.intermediates) && o == Combined(outward, way)
  {
    hide GoodVia, GoodOption, Feasible, OriginalsOwned, WayBack, WayIn, SearchUncut, SearchTrimmed, Validate,
      ReturnRequest, Bridged, Combined, Lead, BlockOf, Tail, GapsMatch;
    var r, ignored := ReturnRequest(d, original, plan, outward.intermediates), Context(d, original, plan);
    ReturnIsFeasible(d, original, plan, outward.intermediates, back, o);
    GoodFits(d, original, plan, outward.intermediates, back, o);
    ReturnAsked(d, original, plan, outward.intermediates);
    way := Offering(r, ignored, back);
    ReturningIsWayBack(d, original, plan, outward, way);
    CombinedIsGood(d, original, plan, outward, way, o);
  }

  /** An uncut, untrimmed search offers every feasible path. */
  lemma Offering(r: Request, ignored: nat, xs: seq<nat>) returns (o: PathOption)
    requires Validate(r).None? && SearchUncut(r, ignored) && !SearchTrimmed(r, ignored)
    requires |xs| <= r.config.maxIntermediates && Feasible(r, ignored, xs)
    ensures o in Bridged(r, ignored) && o.intermediates == xs && GoodOption(r, ignored, o)
  {
    hide Validate, Feasible, OptionsBelow, StructuralBound, SearchUncut, SearchTrimmed, OptionsAnswer, AllGood,
      GoodOption;
    SearchAnswers(r, ignored);
    AnsweredFully(r, SearchOf(r, ignored).options, xs);
    o :| o in SearchOf(r, ignored).options && o.intermediates == xs;
    BridgedAreGood(r, ignored, o);
  }

  lemma GoodFits(d: Destination, original: seq<nat>, plan: BlockPlan, outward: seq<nat>, back: seq<nat>,
                 o: DestinationOption)
    requires PlanFits(original, plan) && GoodVia(d, original, plan, outward, back, o)
    ensures |outward| <= plan.maxAddedTracks && |back| <= Minus(plan.maxAddedTracks, |outward|)
  {
    hide SafeOption, BoundaryCost;
  }

  function OutwardRefusal(d: Destination, original: seq<nat>, plan: BlockPlan): Option<Refusal>
    requires PlanFits(original, plan) && GapsMatch(d, original, plan)
  {
    BridgeRefusal(d, OutwardSource(original, plan), d.gaps[0], plan.maxAddedTracks, d.unavailable)
  }

  function ReturnRefusal(d: Destination, original: seq<nat>, plan: BlockPlan, outward: seq<nat>): Option<Refusal>
    requires PlanFits(original, plan) && GapsMatch(d, original, plan)
  {
    BridgeRefusal(d, ReturnSource(original, plan, outward), d.gaps[|d.gaps| - 1],
                  Minus(plan.maxAddedTracks, |outward|), AlsoUnavailable(d.unavailable, Entry(original, plan, outward)))
  }

  // ----- the least of each count -----

  /** The option is the route over these bridges, with its true boundary cost. */
  ghost predicate Describes(d: Destination, original: seq<nat>, plan: BlockPlan, outward: seq<nat>, back: seq<nat>,
                            o: DestinationOption)
    requires PlanFits(original, plan)
  {
    && o.route == Lead(original, plan) + outward + BlockOf(original, plan) + back + Tail(original, plan)
    && o.added == |outward| + |back|
    && BoundaryCost(d, original, plan, outward, back) == Some(Cost(o.sum, o.worst))
  }

  /** What the planner can offer: the least way in of its count, then the least
      way back of its count, when the finished route passes the checks. */
  ghost predicate Chosen(d: Destination, original: seq<nat>, plan: BlockPlan, outward: seq<nat>, back: seq<nat>,
                         o: DestinationOption)
    requires PlanFits(original, plan) && GapsMatch(d, original, plan)
  {
    && LeastFeasible(OutwardRequest(d, original, plan), 0, outward) && |outward| <= plan.maxAddedTracks
    && LeastBack(d, original, plan, outward, back)
    && Describes(d, original, plan, outward, back, o)
    && Passes(d, original, plan, o.route)
  }

  ghost predicate LeastBack(d: Destination, original: seq<nat>, plan: BlockPlan, outward: seq<nat>, back: seq<nat>)
    requires PlanFits(original, plan) && GapsMatch(d, original, plan)
  {
    if plan.rejoinsQueue then
      && LeastFeasible(ReturnRequest(d, original, plan, outward), Context(d, original, plan), back)
      && |back| <= Minus(plan.maxAddedTracks, |outward|)
    else back == []
  }

  /** No check refuses the request at either boundary. */
  ghost predicate Admitted(d: Destination, original: seq<nat>, plan: BlockPlan)
    requires PlanFits(original, plan) && GapsMatch(d, original, plan)
  {
    && OutwardRefusal(d, original, plan).None?
    && (plan.rejoinsQueue ==>
          forall outward | outward in WaysIn(d, original, plan) ::
            ReturnRefusal(d, original, plan, outward.intermediates).None?)
  }

  lemma AdmittedOutward(d: Destination, original: seq<nat>, plan: BlockPlan)
    requires PlanFits(original, plan) && GapsMatch(d, original, plan) && OutwardRefusal(d, original, plan).None?
    ensures Validate(OutwardRequest(d, original, plan)).None?
  {
    hide Validate, BridgeRequest;
  }

  lemma AdmittedReturn(d: Destination, original: seq<nat>, plan: BlockPlan, outward: seq<nat>)
    requires PlanFits(original, plan) && GapsMatch(d, original, plan) && plan.rejoinsQueue
    requires ReturnRefusal(d, original, plan, outward).None?
    ensures Validate(ReturnRequest(d, original, plan, outward)).None?
  {
    hide Validate, BridgeRequest, ReturnSource, AlsoUnavailable;
  }

  lemma DescribedOnce(d: Destination, original: seq<nat>, plan: BlockPlan, outward: seq<nat>, back: seq<nat>,
                      a: DestinationOption, b: DestinationOption)
    requires PlanFits(original, plan)
    requires Describes(d, original, plan, outward, back, a) && Describes(d, original, plan, outward, back, b)
    ensures a == b
  {
    hide BoundaryCost;
  }

  lemma CombinedDescribes(d: Destination, original: seq<nat>, plan: BlockPlan, outward: PathOption,
                          returning: PathOption)
    requires PlanFits(original, plan) && plan.rejoinsQueue
    requires WayIn(d, original, plan, outward) && WayBack(d, original, plan, outward, returning)
    ensures Describes(d, original, plan, outward.intermediates, returning.intermediates, Combined(outward, returning))
  {
    hide WayIn, WayBack, BoundaryCost, Distinct, Avoids, Offered, Lead, BlockOf, Tail;
    TwoBoundariesShape(d, original, plan, outward, returning, Combined(outward, returning));
    TwoBoundariesCost(d, original, plan, outward, returning, Combined(outward, returning));
  }

  lemma StraightDescribes(d: Destination, original: seq<nat>, plan: BlockPlan, outward: PathOption)
    requires PlanFits(original, plan) && !plan.rejoinsQueue && WayIn(d, original, plan, outward)
    ensures Describes(d, original, plan, outward.intermediates, [], Straight(original, plan, outward))
  {
    hide Distinct, Avoids, Offered, WalkCost;
    BlockJoins(Lead(original, plan), outward.intermediates, BlockOf(original, plan), []);
  }

  /** Each combination found is one of the least ways in and back. */
  lemma FoundIsChosen(d: Destination, original: seq<nat>, plan: BlockPlan, outward: PathOption, o: DestinationOption)
    requires PlanFits(original, plan) && GapsMatch(d, original, plan) && Admitted(d, original, plan)
    requires d.variationPercent == 0 && BridgesUncut(d, original, plan)
    requires outward in WaysIn(d, original, plan) && o in OptionsBy(d, original, plan, outward)
    ensures exists back: seq<nat> :: Chosen(d, original, plan, outward.intermediates, back, o)
  {
    hide GoodOption, LeastFeasible, SearchUncut, Validate, WayIn, WayBack, Passes, Describes, OutwardRequest,
      ReturnRequest, Bridged, Passing, OutwardRefusal, ReturnRefusal, GapsMatch, Lead, BlockOf, Tail;
    var r, xs := OutwardRequest(d, original, plan), outward.intermediates;
    BridgedAreGood(r, 0, outward);
    OutwardIsWayIn(d, original, plan, outward);
    AskedOnce(d, original, plan, xs);
    BridgedAreLeast(r, 0, outward);
    WayInFits(d, original, plan, outward);
    if plan.rejoinsQueue {
      var back := ReturnRequest(d, original, plan, xs);
      PassingMembers(d, original, plan, outward, WaysBack(d, original, plan, xs));
      var way :| way in WaysBack(d, original, plan, xs) && o == Combined(outward, way) &&
          Passes(d, original, plan, o.route);
      BridgedAreGood(back, Context(d, original, plan), way);
      ReturningIsWayBack(d, original, plan, outward, way);
      assert !ReturnCut(d, original, plan, outward);
      BridgedAreLeast(back, Context(d, original, plan), way);
      WayBackFits(d, original, plan, outward, way);
      CombinedDescribes(d, original, plan, outward, way);
      assert Chosen(d, original, plan, xs, way.intermediates, o);
    } else {
      StraightDescribes(d, original, plan, outward);
      assert Chosen(d, original, plan, xs, [], o);
    }
  }

  lemma WayInFits(d: Destination, original: seq<nat>, plan: BlockPlan, outward: PathOption)
    requires PlanFits(original, plan) && WayIn(d, original, plan, outward)
    ensures |outward.intermediates| <= plan.maxAddedTracks
  {
    hide Distinct, Avoids, Offered, WalkCost;
  }

  lemma WayBackFits(d: Destination, original: seq<nat>, plan: BlockPlan, outward: PathOption, way: PathOption)
    requires PlanFits(original, plan) && plan.rejoinsQueue && WayBack(d, original, plan, outward, way)
    ensures |way.intermediates| <= Minus(plan.maxAddedTracks, |outward.intermediates|)
  {
    hide Distinct, Avoids, Offered, WalkCost, RightAnchorSafe, AlsoUnavailable;
  }

  /** Both searches keep one path a count. */
  lemma AskedOnce(d: Destination, original: seq<nat>, plan: BlockPlan, outward: seq<nat>)
    requires PlanFits(original, plan) && GapsMatch(d, original, plan)
    ensures var r := OutwardRequest(d, original, plan);
            && r.config.alternativesPerCount == 1 && r.config.variationPercent == d.variationPercent
            && r.config.maxIntermediates == plan.maxAddedTracks
    ensures plan.rejoinsQueue ==>
              var r := ReturnRequest(d, original, plan, outward);
              && r.config.alternativesPerCount == 1 && r.config.variationPercent == d.variationPercent
              && r.config.maxIntermediates == Minus(plan.maxAddedTracks, |outward|)
  {
  }

  lemma BridgedAreLeast(r: Request, ignored: nat, o: PathOption)
    requires o in Bridged(r, ignored) && SearchUncut(r, ignored)
    requires r.config.variationPercent == 0 && r.config.alternativesPerCount == 1
    ensures LeastFeasible(r, ignored, o.intermediates)
  {
    hide Validate, GoodOption, LeastFeasible, OptionsBelow, StructuralBound, SearchUncut;
    BridgedAreGood(r, ignored, o);
    SearchKeepsLeast(r, ignored);
  }

  lemma LeastIsBridged(r: Request, ignored: nat, xs: seq<nat>) returns (o: PathOption)
    requires Validate(r).None? && SearchUncut(r, ignored)
    requires r.config.variationPercent == 0 && r.config.alternativesPerCount == 1
    requires LeastFeasible(r, ignored, xs) && |xs| <= r.config.maxIntermediates
    ensures o in Bridged(r, ignored) && o.intermediates == xs && GoodOption(r, ignored, o)
  {
    hide Validate, GoodOption, LeastFeasible, OptionsBelow, StructuralBound, SearchUncut;
    LeastIsOffered(r, ignored, xs);
    o :| o in SearchOf(r, ignored).options && o.intermediates == xs;
    BridgedAreGood(r, ignored, o);
  }

  /** Each least way in and back that passes is found. */
  lemma ChosenIsFound(d: Destination, original: seq<nat>, plan: BlockPlan, outward: seq<nat>, back: seq<nat>,
                      o: DestinationOption)
    requires PlanFits(original, plan) && GapsMatch(d, original, plan) && Admitted(d, original, plan)
    requires d.variationPercent == 0 && BridgesUncut(d, original, plan)
    requires Chosen(d, original, plan, outward, back, o)
    ensures o in AllOptions(d, original, plan)
  {
    hide GoodOption, LeastFeasible, SearchUncut, Validate, WayIn, WayBack, Passes, Describes, OutwardRequest,
      ReturnRequest, Bridged, Passing, OutwardRefusal, ReturnRefusal, GapsMatch, Lead, BlockOf, Tail, OptionsOf,
      Combined;
    AdmittedOutward(d, original, plan);
    AskedOnce(d, original, plan, outward);
    var entry := LeastIsBridged(OutwardRequest(d, original, plan), 0, outward);
    OutwardIsWayIn(d, original, plan, entry);
    OptionsOfMembers(d, original, plan, WaysIn(d, original, plan));
    if plan.rejoinsQueue {
      AdmittedReturn(d, original, plan, outward);
      assert !ReturnCut(d, original, plan, entry);
      var way := LeastIsBridged(ReturnRequest(d, original, plan, outward), Context(d, original, plan), back);
      ReturningIsWayBack(d, original, plan, entry, way);
      CombinedDescribes(d, original, plan, entry, way);
      DescribedOnce(d, original, plan, outward, back, o, Combined(entry, way));
      PassingMembers(d, original, plan, entry, WaysBack(d, original, plan, outward));
    } else {
      StraightDescribes(d, original, plan, entry);
      DescribedOnce(d, original, plan, outward, back, o, Straight(original, plan, entry));
    }
    assert o in OptionsBy(d, original, plan, entry);
  }

  /** Without variation and uncut, the combinations found are exactly the least
      ways in and back whose finished route passes the checks. */
  lemma OptionsAreChosen(d: Destination, original: seq<nat>, plan: BlockPlan, o: DestinationOption)
    requires PlanFits(original, plan) && GapsMatch(d, original, plan) && Admitted(d, original, plan)
    requires d.variationPercent == 0 && BridgesUncut(d, original, plan)
    ensures o in AllOptions(d, original, plan) <==>
            exists outward, back: seq<nat> :: Chosen(d, original, plan, outward, back, o)
  {
    hide Chosen, OptionsBy, OptionsOf, WaysIn, BridgesUncut, Admitted, GapsMatch;
    if o in AllOptions(d, original, plan) {
      OptionsOfMembers(d, original, plan, WaysIn(d, original, plan));
      var outward :| outward in WaysIn(d, original, plan) && o in OptionsBy(d, original, plan, outward);
      FoundIsChosen(d, original, plan, outward, o);
    }
    if outward, back: seq<nat> :| Chosen(d, original, plan, outward, back, o) {
      ChosenIsFound(d, original, plan, outward, back, o);
    }
  }

  /** The options are the best of what can be chosen, count by count. */
  ghost predicate BestChosen(d: Destination, original: seq<nat>, plan: BlockPlan, options: seq<DestinationOption>)
    requires PlanFits(original, plan) && GapsMatch(d, original, plan)
  {
    && (forall o | o in options :: exists outward, back: seq<nat> :: Chosen(d, original, plan, outward, back, o))
    && (forall outward, back: seq<nat>, o | Chosen(d, original, plan, outward, back, o) ::
          exists b :: b in options && b.added == o.added && KeyLe(OptionKeyOf(b), OptionKeyOf(o)))
  }

  lemma BestAreChosen(d: Destination, original: seq<nat>, plan: BlockPlan, best: seq<DestinationOption>)
    requires PlanFits(original, plan) && GapsMatch(d, original, plan) && Admitted(d, original, plan)
    requires d.variationPercent == 0 && BridgesUncut(d, original, plan) && BestOf(AllOptions(d, original, plan), best)
    ensures BestChosen(d, original, plan, best)
  {
    hide Chosen, AllOptions, BridgesUncut, Admitted, GapsMatch, KeyLe;
    forall o | o in best ensures exists outward, back: seq<nat> :: Chosen(d, original, plan, outward, back, o) {
      OptionsAreChosen(d, original, plan, o);
    }
    forall outward, back: seq<nat>, o | Chosen(d, original, plan, outward, back, o)
      ensures exists b :: b in best && b.added == o.added && KeyLe(OptionKeyOf(b), OptionKeyOf(o))
    {
      OptionsAreChosen(d, original, plan, o);
    }
  }

  /** The least way in of its count, and the finished route passes the two final checks. */
  ghost predicate LeastPasses(d: Destination, original: seq<nat>, plan: BlockPlan, outward: seq<nat>)
    requires PlanFits(original, plan) && GapsMatch(d, original, plan)
  {
    && |outward| <= plan.maxAddedTracks
    && LeastFeasible(OutwardRequest(d, original, plan), 0, outward)
    && Passes(d, original, plan, Lead(original, plan) + outward + BlockOf(original, plan))
  }

  /** Without a rejoin anchor a count has an option exactly when the least way
      in of that count passes the two final checks. */
  lemma CountIsOffered(d: Destination, original: seq<nat>, plan: BlockPlan, best: seq<DestinationOption>, count: nat)
    requires PlanFits(original, plan) && GapsMatch(d, original, plan) && !plan.rejoinsQueue
    requires BestChosen(d, original, plan, best)
    ensures (exists b :: b in best && b.added == count) <==>
            (exists outward: seq<nat> :: |outward| == count && LeastPasses(d, original, plan, outward))
  {
    hide Chosen, LeastPasses, KeyLe, GapsMatch;
    if b :| b in best && b.added == count {
      var outward, back: seq<nat> :| Chosen(d, original, plan, outward, back, b);
      ChosenPasses(d, original, plan, outward, back, b);
    }
    if outward: seq<nat> :| |outward| == count && LeastPasses(d, original, plan, outward) {
      var o := PassesIsChosen(d, original, plan, outward);
    }
  }

  lemma ChosenPasses(d: Destination, original: seq<nat>, plan: BlockPlan, outward: seq<nat>, back: seq<nat>,
                     o: DestinationOption)
    requires PlanFits(original, plan) && GapsMatch(d, original, plan) && !plan.rejoinsQueue
    requires Chosen(d, original, plan, outward, back, o)
    ensures |outward| == o.added && LeastPasses(d, original, plan, outward)
  {
    hide LeastFeasible, Passes, Lead, BlockOf, OutwardRequest, GapsMatch, BoundaryCost;
    assert Tail(original, plan) == [];
    NoTail(Lead(original, plan), outward, BlockOf(original, plan));
  }

  lemma PassesIsChosen(d: Destination, original: seq<nat>, plan: BlockPlan, outward: seq<nat>)
    returns (o: DestinationOption)
    requires PlanFits(original, plan) && GapsMatch(d, original, plan) && !plan.rejoinsQueue
    requires LeastPasses(d, original, plan, outward)
    ensures Chosen(d, original, plan, outward, [], o) && o.added == |outward|
  {
    hide LeastFeasible, Passes, Lead, BlockOf, OutwardRequest, GapsMatch, BoundaryCost;
    assert Tail(original, plan) == [];
    NoTail(Lead(original, plan), outward, BlockOf(original, plan));
    o := Described(d, original, plan, outward);
  }

  lemma NoTail(lead: seq<nat>, outward: seq<nat>, block: seq<nat>)
    ensures lead + outward + block + [] + [] == lead + outward + block
  {
  }

  /** A feasible way in has an option that describes it. */
  lemma Described(d: Destination, original: seq<nat>, plan: BlockPlan, outward: seq<nat>) returns (o: DestinationOption)
    requires PlanFits(original, plan) && GapsMatch(d, original, plan) && !plan.rejoinsQueue
    requires LeastFeasible(OutwardRequest(d, original, plan), 0, outward)
    ensures Describes(d, original, plan, outward, [], o)
  {
    hide KeyLe, PathKey, WalkCost, GeneratedSafe, RightAnchorSafe, AvailableTracks, Lead, BlockOf, OutwardRequest,
      GapsMatch;
    OutwardAsked(d, original, plan);
    var cost := BoundaryCost(d, original, plan, outward, []).value;
    o := DestinationOption(|outward| + 0, Lead(original, plan) + outward + BlockOf(original, plan) + [] +
                           Tail(original, plan),
                           cost.sum, cost.worst);
  }

  // ----- the methods -----

  lemma ReturnSourceStarts(original: seq<nat>, plan: BlockPlan, outward: seq<nat>)
    requires PlanFits(original, plan) && plan.rejoinsQueue
    ensures ReturnSource(original, plan, outward) != []
  {
  }

  /** The ways back that pass the final checks, joined to the way in. */
  method KeepPassing(d: Destination, original: seq<nat>, plan: BlockPlan, outward: PathOption, ways: seq<PathOption>)
    returns (options: seq<DestinationOption>)
    requires PlanFits(original, plan)
    ensures options == Passing(d, original, plan, outward, ways)
  {
    hide Passes, Combined;
    options := [];
    for k := 0 to |ways|
      invariant options == Passing(d, original, plan, outward, ways[..k])
    {
      assert ways[..k + 1][..k] == ways[..k];
      var o := Combined(outward, ways[k]);
      if Passes(d, original, plan, o.route) {
        options := options + [o];
      }
    }
    assert ways[..|ways|] == ways;
  }

  /** Return routes for one outward route, those that pass the final checks. */
  method ReturnOptions(d: Destination, original: seq<nat>, plan: BlockPlan, outward: PathOption)
    returns (result: DestinationResult, ghost cut: bool, ghost trimmed: bool)
    requires PlanFits(original, plan) && GapsMatch(d, original, plan) && plan.rejoinsQueue
    requires GoodOption(OutwardRequest(d, original, plan), 0, outward)
    ensures result.Options? ==>
              && result.options == OptionsBy(d, original, plan, outward)
              && (cut <==> ReturnCut(d, original, plan, outward))
              && (trimmed <==> ReturnTrimmed(d, original, plan, outward))
    ensures result.Options? ==> AllDestinations(d, original, plan, result.options)
    ensures result.Options? && !cut && !trimmed && OriginalsOwned(d, original) ==>
              Covered(d, original, plan, outward, result.options)
    ensures Unlimited(ReturnRequest(d, original, plan, outward.intermediates), Context(d, original, plan)) ==>
              !cut && !trimmed
    ensures result.Refused? ==> ReturnRefusal(d, original, plan, outward.intermediates) == Some(result.refusal)
    ensures result.Options? ==> ReturnRefusal(d, original, plan, outward.intermediates).None?
  {
    hide GoodOption, AllGood, Feasible, Unlimited, Covered, OriginalsOwned, AllDestinations, BridgeRequest, Lead,
      BlockOf, Tail, OutwardRequest, SearchUncut, SearchTrimmed, Passing, LeastFeasible, Validate, OptionsBelow,
      StructuralBound;
    var xs := outward.intermediates;
    ReturnSourceStarts(original, plan, xs);
    OutwardIsWayIn(d, original, plan, outward);
    OptionsByAreGood(d, original, plan, outward);
    var bridges;
    bridges, cut, trimmed := BridgeRoutes(d, outward.route + BlockOf(original, plan)[1..] + Tail(original, plan),
                                          d.gaps[1], Minus(plan.maxAddedTracks, |xs|),
                                          AlsoUnavailable(d.unavailable, outward.route),
                                          Context(d, original, plan));
    if bridges.BridgesRefused? {
      return Refused(bridges.refusal), cut, trimmed;
    }
    if !cut && !trimmed && OriginalsOwned(d, original) {
      OptionsByCover(d, original, plan, outward);
    }
    var options := KeepPassing(d, original, plan, outward, bridges.options);
    return Options(options), cut, trimmed;
  }

  lemma GoodMember(r: Request, ignored: nat, options: seq<PathOption>, k: nat)
    requires AllGood(r, ignored, options) && k < |options|
    ensures GoodOption(r, ignored, options[k])
  {
  }

  /** The first of the least options of each addition count. */
  ghost predicate BestTable(options: seq<DestinationOption>, table: map<nat, DestinationOption>) {
    && (forall c | c in table :: table[c] in options && table[c].added == c)
    && forall o | o in options :: o.added in table && KeyLe(OptionKeyOf(table[o.added]), OptionKeyOf(o))
  }

  lemma BestTableGrows(options: seq<DestinationOption>, table: map<nat, DestinationOption>, o: DestinationOption)
    requires BestTable(options, table)
    ensures o.added !in table || !KeyLe(OptionKeyOf(table[o.added]), OptionKeyOf(o)) ==>
              BestTable(options + [o], table[o.added := o])
    ensures o.added in table && KeyLe(OptionKeyOf(table[o.added]), OptionKeyOf(o)) ==>
              BestTable(options + [o], table)
  {
    hide KeyLe;
    KeyLeTotal(OptionKeyOf(o), OptionKeyOf(o));
    if o.added in table && !KeyLe(OptionKeyOf(table[o.added]), OptionKeyOf(o)) {
      KeyLeTotal(OptionKeyOf(table[o.added]), OptionKeyOf(o));
      forall p | p in options && p.added == o.added ensures KeyLe(OptionKeyOf(o), OptionKeyOf(p)) {
        KeyLeTransitive(OptionKeyOf(o), OptionKeyOf(table[o.added]), OptionKeyOf(p));
      }
    }
  }

  /** `best` holds the least option of each addition count, by ascending count. */
  ghost predicate BestOf(options: seq<DestinationOption>, best: seq<DestinationOption>) {
    && (forall o | o in best :: o in options)
    && (forall i, j | 0 <= i < j < |best| :: best[i].added < best[j].added)
    && (forall o | o in options ::
          exists b :: b in best && b.added == o.added && KeyLe(OptionKeyOf(b), OptionKeyOf(o)))
  }

  /** The best option of each addition count, by worst leg, sum and route. */
  method BestByCount(options: seq<DestinationOption>, most: nat) returns (best: seq<DestinationOption>)
    requires forall o | o in options :: o.added <= most
    ensures BestOf(options, best)
  {
    hide KeyLe, BestTable;
    var table: map<nat, DestinationOption> := map[];
    assert BestTable([], table) by { EmptyTable(); }
    for k := 0 to |options|
      invariant BestTable(options[..k], table)
    {
      var o := options[k];
      BestTableGrows(options[..k], table, o);
      assert options[..k + 1] == options[..k] + [o];
      if o.added !in table || !KeyLe(OptionKeyOf(table[o.added]), OptionKeyOf(o)) {
        table := table[o.added := o];
      }
    }
    assert options[..|options|] == options;
    best := ListTable(options, table, most);
  }

  lemma EmptyTable()
    ensures BestTable([], map[])
  {
  }

  /** The entries of the table with count below `c`, by ascending count. */
  ghost predicate Listed(table: map<nat, DestinationOption>, best: seq<DestinationOption>, c: nat) {
    && (forall i | 0 <= i < |best| :: best[i].added < c && best[i].added in table && table[best[i].added] == best[i])
    && (forall i, j | 0 <= i < j < |best| :: best[i].added < best[j].added)
    && (forall a | a in table && a < c :: table[a] in best)
  }

  lemma ListedAnswers(options: seq<DestinationOption>, table: map<nat, DestinationOption>,
                      best: seq<DestinationOption>, c: nat)
    requires BestTable(options, table) && Listed(table, best, c) && forall o | o in options :: o.added < c
    ensures forall o | o in best :: o in options
    ensures forall o | o in options ::
              exists b :: b in best && b.added == o.added && KeyLe(OptionKeyOf(b), OptionKeyOf(o))
  {
    hide KeyLe;
    forall o | o in options
      ensures exists b :: b in best && b.added == o.added && KeyLe(OptionKeyOf(b), OptionKeyOf(o))
    {
      assert table[o.added] in best;
    }
  }

  lemma ListedGrows(table: map<nat, DestinationOption>, best: seq<DestinationOption>, c: nat)
    requires Listed(table, best, c) && forall a | a in table :: table[a].added == a
    ensures Listed(table, if c in table then best + [table[c]] else best, c + 1)
  {
    if c in table {
      var more := best + [table[c]];
      assert more[|best|] == table[c];
    }
  }

  method ListTable(options: seq<DestinationOption>, table: map<nat, DestinationOption>, most: nat)
    returns (best: seq<DestinationOption>)
    requires BestTable(options, table) && forall o | o in options :: o.added <= most
    ensures forall o | o in best :: o in options
    ensures forall i, j | 0 <= i < j < |best| :: best[i].added < best[j].added
    ensures forall o | o in options ::
              exists b :: b in best && b.added == o.added && KeyLe(OptionKeyOf(b), OptionKeyOf(o))
  {
    hide KeyLe;
    best := [];
    for c := 0 to most + 1
      invariant Listed(table, best, c)
    {
      ListedGrows(table, best, c);
      if c in table {
        best := best + [table[c]];
      }
    }
    ListedAnswers(options, table, best, most + 1);
  }

  lemma DestinationBudget(d: Destination, original: seq<nat>, plan: BlockPlan, options: seq<DestinationOption>)
    requires PlanFits(original, plan) && AllDestinations(d, original, plan, options)
    ensures forall o | o in options :: o.added <= plan.maxAddedTracks
  {
    hide SafeOption, BoundaryCost;
  }

  lemma RejectedRequestHasNoOption(d: Destination, original: seq<nat>, plan: BlockPlan, options: seq<DestinationOption>)
    requires PlanFits(original, plan) && AllDestinations(d, original, plan, options) && OriginalsOwned(d, original)
    requires OutwardMinimum(d.policy, d.history + Lead(original, plan), BlockOf(original, plan)) +
             RejoinMinimum(d.policy, BlockOf(original, plan), Tail(original, plan)) > plan.maxAddedTracks
    ensures options == []
  {
    hide GoodDestination, OutwardMinimum, RejoinMinimum, OriginalsOwned;
    DestinationBudget(d, original, plan, options);
    if options != [] {
      assert options[0] in options;
      PreflightIsNecessary(d, original, plan, options[0]);
    }
  }

  ghost predicate AllUnlimited(d: Destination, original: seq<nat>, plan: BlockPlan)
    requires PlanFits(original, plan) && GapsMatch(d, original, plan)
  {
    && Unlimited(OutwardRequest(d, original, plan), 0)
    && (plan.rejoinsQueue ==>
          forall outward | GoodOption(OutwardRequest(d, original, plan), 0, outward) ::
            Unlimited(ReturnRequest(d, original, plan, outward.intermediates), Context(d, original, plan)))
  }

  /** A refusal has its reason at one of the two boundaries. */
  ghost predicate RefusedFor(d: Destination, original: seq<nat>, plan: BlockPlan, refusal: Refusal)
    requires PlanFits(original, plan) && GapsMatch(d, original, plan)
  {
    || OutwardRefusal(d, original, plan) == Some(refusal)
    || (plan.rejoinsQueue && OutwardRefusal(d, original, plan).None? &&
        exists outward :: outward in WaysIn(d, original, plan) &&
          ReturnRefusal(d, original, plan, outward.intermediates) == Some(refusal))
  }

  /** Which request is refused, and why: an inconsistent one, then one over the
      budget, then one without limits; after that only a path search refuses. */
  ghost predicate RefusedRightly(d: Destination, original: seq<nat>, plan: BlockPlan, result: DestinationResult) {
    var consistent := Consistent(d, original, plan);
    var within := consistent && plan.maxAddedTracks <= 8;
    var limited := within && d.candidateLimit >= 1 && d.beamWidth >= 1;
    && (result == Refused(InconsistentAnchors) <==> !consistent)
    && (result == Refused(BudgetTooLarge) <==> consistent && !within)
    && (result == Refused(SearchLimitsMustBePositive) <==> within && !limited)
    && (result.Refused? && !result.refusal.PathRefused? <==> !limited)
  }

  /** Nothing but equal anchors, a variation over a hundred or an unknown track
      makes a path search refuse. */
  ghost predicate Sound(d: Destination, original: seq<nat>, plan: BlockPlan)
    requires PlanFits(original, plan) && GapsMatch(d, original, plan)
  {
    && d.variationPercent <= 100
    && (forall g | 0 <= g < |d.gaps| :: d.gaps[g].left != d.gaps[g].right)
    && ValidIndices(d.policy, original) && ValidIndices(d.policy, d.history) && ValidIndices(d.policy, d.unavailable)
    && forall g | 0 <= g < |d.gaps| :: ValidIndices(d.policy, CandidateTracks(d.gaps[g].candidates))
  }

  lemma ValidPart(p: Policy, front: seq<nat>, middle: seq<nat>, back: seq<nat>)
    requires ValidIndices(p, front + middle + back)
    ensures ValidIndices(p, front) && ValidIndices(p, middle) && ValidIndices(p, back)
  {
    hide ValidIndices;
    ValidIndicesJoin(p, front + middle, back);
    ValidIndicesJoin(p, front, middle);
  }

  lemma OutwardRefusalMeaning(d: Destination, original: seq<nat>, plan: BlockPlan)
    requires PlanFits(original, plan) && GapsMatch(d, original, plan)
    ensures BridgeRefusedRightly(d, OutwardSource(original, plan), d.gaps[0], plan.maxAddedTracks, d.unavailable,
                                 OutwardRefusal(d, original, plan))
    ensures EndsWithGap(OutwardSource(original, plan), d.gaps[0])
  {
    hide BridgeRefusedRightly;
    BridgeRefusalMeaning(d, OutwardSource(original, plan), d.gaps[0], plan.maxAddedTracks, d.unavailable);
    var route := OutwardSource(original, plan);
    assert route[|route| - 2..] == [route[|route| - 2], route[|route| - 1]];
  }

  lemma ReturnRefusalMeaning(d: Destination, original: seq<nat>, plan: BlockPlan, outward: seq<nat>)
    requires PlanFits(original, plan) && GapsMatch(d, original, plan) && plan.rejoinsQueue
    ensures BridgeRefusedRightly(d, ReturnSource(original, plan, outward), d.gaps[1],
                                 Minus(plan.maxAddedTracks, |outward|),
                                 AlsoUnavailable(d.unavailable, Entry(original, plan, outward)),
                                 ReturnRefusal(d, original, plan, outward))
    ensures EndsWithGap(ReturnSource(original, plan, outward), d.gaps[1])
  {
    hide BridgeRefusedRightly;
    BridgeRefusalMeaning(d, ReturnSource(original, plan, outward), d.gaps[1], Minus(plan.maxAddedTracks, |outward|),
                         AlsoUnavailable(d.unavailable, Entry(original, plan, outward)));
    ReturnEnds(original, plan, outward);
    var route := ReturnSource(original, plan, outward);
    assert route[|route| - 2..] == [route[|route| - 2], route[|route| - 1]];
  }

  lemma RefusedForRightly(d: Destination, original: seq<nat>, plan: BlockPlan, refusal: Refusal)
    requires PlanFits(original, plan) && GapsMatch(d, original, plan) && RefusedFor(d, original, plan, refusal)
    ensures RefusedRightly(d, original, plan, Refused(refusal))
  {
    hide OutwardRefusal, ReturnRefusal, BridgeRequest, TracksKnown, FirstUnknown, EndsWithGap, Bridged;
    ConsistentMeaning(d, original, plan);
    OutwardRefusalMeaning(d, original, plan);
    if OutwardRefusal(d, original, plan) != Some(refusal) {
      var outward :| outward in WaysIn(d, original, plan) &&
        ReturnRefusal(d, original, plan, outward.intermediates) == Some(refusal);
      ReturnRefusalMeaning(d, original, plan, outward.intermediates);
    }
  }

  lemma AdmittedRightly(d: Destination, original: seq<nat>, plan: BlockPlan, options: seq<DestinationOption>)
    requires PlanFits(original, plan) && GapsMatch(d, original, plan) && OutwardRefusal(d, original, plan).None?
    ensures RefusedRightly(d, original, plan, Options(options))
  {
    hide OutwardRefusal, BridgeRequest, TracksKnown, FirstUnknown, EndsWithGap;
    ConsistentMeaning(d, original, plan);
    OutwardRefusalMeaning(d, original, plan);
  }

  lemma InconsistentRightly(d: Destination, original: seq<nat>, plan: BlockPlan)
    requires !Consistent(d, original, plan)
    ensures RefusedRightly(d, original, plan, Refused(InconsistentAnchors))
  {
  }

  lemma ValidMembers(p: Policy, route: seq<nat>)
    ensures ValidIndices(p, route) <==> forall x | x in route :: x < |p.tracks|
  {
    if forall x | x in route :: x < |p.tracks| {
      forall i | 0 <= i < |route| ensures route[i] < |p.tracks| {
        assert route[i] in route;
      }
    }
  }

  lemma SoundOutward(d: Destination, original: seq<nat>, plan: BlockPlan)
    requires PlanFits(original, plan) && GapsMatch(d, original, plan) && Sound(d, original, plan)
    ensures TracksKnown(OutwardRequest(d, original, plan))
  {
    hide ValidIndices, OutwardRequest;
    var r := OutwardRequest(d, original, plan);
    OutwardAsked(d, original, plan);
    OriginalSplits(original, plan);
    ValidPart(d.policy, Lead(original, plan), BlockOf(original, plan), Tail(original, plan));
    ValidMembers(d.policy, original);
    CandidatesKnown(r);
    OutwardAnchors(d, original, plan);
  }

  lemma OutwardAnchors(d: Destination, original: seq<nat>, plan: BlockPlan)
    requires PlanFits(original, plan) && GapsMatch(d, original, plan)
    ensures var r := OutwardRequest(d, original, plan);
            r.leftAnchor in original && r.rightAnchor in original
  {
  }

  lemma ReturnAnchors(d: Destination, original: seq<nat>, plan: BlockPlan, outward: seq<nat>)
    requires PlanFits(original, plan) && GapsMatch(d, original, plan) && plan.rejoinsQueue
    ensures var r := ReturnRequest(d, original, plan, outward);
            r.leftAnchor in original && r.rightAnchor in original
  {
  }

  lemma SoundReturn(d: Destination, original: seq<nat>, plan: BlockPlan, outward: PathOption)
    requires PlanFits(original, plan) && GapsMatch(d, original, plan) && Sound(d, original, plan) && plan.rejoinsQueue
    requires outward in WaysIn(d, original, plan)
    ensures TracksKnown(ReturnRequest(d, original, plan, outward.intermediates))
  {
    hide ValidIndices, OutwardRequest, ReturnRequest, Lead, BlockOf, Tail, Bridged, GoodOption;
    var xs, r := outward.intermediates, ReturnRequest(d, original, plan, outward.intermediates);
    BridgedAreGood(OutwardRequest(d, original, plan), 0, outward);
    OptionBasics(OutwardRequest(d, original, plan), 0, outward);
    OutwardAsked(d, original, plan);
    PoolValid(d.policy, xs, CandidateTracks(d.gaps[0].candidates));
    ReturnAsked(d, original, plan, xs);
    ReturnAnchors(d, original, plan, xs);
    ValidMembers(d.policy, original);
    CandidatesKnown(r);
    BridgedRouteValid(d, original, plan, xs);
  }

  lemma BridgedRouteValid(d: Destination, original: seq<nat>, plan: BlockPlan, outward: seq<nat>)
    requires PlanFits(original, plan) && ValidIndices(d.policy, original) && ValidIndices(d.policy, outward)
    requires ValidIndices(d.policy, d.unavailable)
    ensures ValidIndices(d.policy, Lead(original, plan) + outward + BlockOf(original, plan))
    ensures ValidIndices(d.policy, AlsoUnavailable(d.unavailable, Entry(original, plan, outward)))
  {
    hide ValidIndices, Lead, BlockOf, Tail, PlanFits;
    var p, lead, block := d.policy, Lead(original, plan), BlockOf(original, plan);
    OriginalSplits(original, plan);
    ValidPart(p, lead, block, Tail(original, plan));
    ValidIndicesJoin(p, lead, outward);
    ValidIndicesJoin(p, lead + outward, block);
    BlockNotEmpty(original, plan);
    ValidMembers(p, block);
    assert block[0] in block;
    ValidMembers(p, [block[0]]);
    ValidIndicesJoin(p, lead + outward, [block[0]]);
    var entry := Entry(original, plan, outward);
    ValidMembers(p, entry);
    ValidMembers(p, d.unavailable);
    ValidMembers(p, AlsoUnavailable(d.unavailable, entry));
  }

  lemma PoolValid(p: Policy, xs: seq<nat>, pool: seq<nat>)
    requires FromPool(xs, pool) && ValidIndices(p, pool)
    ensures ValidIndices(p, xs)
  {
    forall i | 0 <= i < |xs| ensures xs[i] < |p.tracks| {
      var k :| 0 <= k < |pool| && pool[k] == xs[i];
    }
  }

  /** A sound request within the limits is not refused. */
  lemma SoundIsServed(d: Destination, original: seq<nat>, plan: BlockPlan, refusal: Refusal)
    requires PlanFits(original, plan) && GapsMatch(d, original, plan) && Sound(d, original, plan)
    requires plan.maxAddedTracks <= 8 && d.candidateLimit >= 1 && d.beamWidth >= 1
    ensures !RefusedFor(d, original, plan, refusal)
  {
    hide OutwardRefusal, ReturnRefusal, TracksKnown, FirstUnknown, EndsWithGap, Bridged, BridgeRequest, ValidIndices;
    OutwardRefusalMeaning(d, original, plan);
    SoundOutward(d, original, plan);
    if RefusedFor(d, original, plan, refusal) {
      assert OutwardRefusal(d, original, plan).None?;
      var outward :| outward in WaysIn(d, original, plan) &&
        ReturnRefusal(d, original, plan, outward.intermediates) == Some(refusal);
      ReturnRefusalMeaning(d, original, plan, outward.intermediates);
      SoundReturn(d, original, plan, outward);
      assert false;
    }
  }

  lemma ReturnEnds(original: seq<nat>, plan: BlockPlan, outward: seq<nat>)
    requires PlanFits(original, plan) && plan.rejoinsQueue
    ensures var route, block := ReturnSource(original, plan, outward), BlockOf(original, plan);
            |route| > 1 && route[|route| - 2] == block[|block| - 1] && route[|route| - 1] == Tail(original, plan)[0]
  {
    hide Lead, BlockOf, Tail, PlanFits;
    var block := BlockOf(original, plan);
    assert |block| > 0 by { BlockNotEmpty(original, plan); }
    if |block| > 1 {
      assert block[1..][|block| - 2] == block[|block| - 1];
    }
  }

  lemma BlockNotEmpty(original: seq<nat>, plan: BlockPlan)
    requires PlanFits(original, plan)
    ensures |BlockOf(original, plan)| > 0
  {
  }

  /** Every good option is matched by one of its count that is at least as good. */
  ghost predicate Matched(d: Destination, original: seq<nat>, plan: BlockPlan, options: seq<DestinationOption>)
    requires PlanFits(original, plan)
  {
    forall o | GoodDestination(d, original, plan, o) ::
      exists b :: b in options && b.added == o.added && KeyLe(OptionKeyOf(b), OptionKeyOf(o))
  }

  lemma BestMatch(d: Destination, original: seq<nat>, plan: BlockPlan, outwards: seq<PathOption>,
                  options: seq<DestinationOption>, best: seq<DestinationOption>)
    requires PlanFits(original, plan) && GapsMatch(d, original, plan) && OriginalsOwned(d, original)
    requires forall xs: seq<nat> | |xs| <= plan.maxAddedTracks && Feasible(OutwardRequest(d, original, plan), 0, xs) ::
               HasOption(outwards, xs)
    requires forall j | 0 <= j < |outwards| :: Covered(d, original, plan, outwards[j], options)
    requires BestOf(options, best)
    ensures Matched(d, original, plan, best)
  {
    hide GoodVia, Feasible, KeyLe, OriginalsOwned;
    forall o | GoodDestination(d, original, plan, o)
      ensures exists b :: b in best && b.added == o.added && KeyLe(OptionKeyOf(b), OptionKeyOf(o))
    {
      var xs, back: seq<nat> :| GoodVia(d, original, plan, xs, back, o);
      OutwardIsFeasible(d, original, plan, xs, back, o);
      GoodFits(d, original, plan, xs, back, o);
      assert HasOption(outwards, xs);
      var outward :| outward in outwards && outward.intermediates == xs;
      var j :| 0 <= j < |outwards| && outwards[j] == outward;
      assert Covered(d, original, plan, outwards[j], options);
      assert o in options;
    }
  }

  lemma CoveredGrows(d: Destination, original: seq<nat>, plan: BlockPlan, outward: PathOption,
                     options: seq<DestinationOption>, more: seq<DestinationOption>)
    requires PlanFits(original, plan)
    requires Covered(d, original, plan, outward, options) || Covered(d, original, plan, outward, more)
    ensures Covered(d, original, plan, outward, options + more)
  {
    hide GoodVia;
  }

  /** The options that one outward route leads to. */
  method OptionsVia(d: Destination, original: seq<nat>, plan: BlockPlan, outward: PathOption)
    returns (result: DestinationResult, ghost cut: bool, ghost trimmed: bool)
    requires PlanFits(original, plan) && GapsMatch(d, original, plan)
    requires GoodOption(OutwardRequest(d, original, plan), 0, outward)
    ensures result.Options? ==> result.options == OptionsBy(d, original, plan, outward)
    ensures result.Options? && plan.rejoinsQueue ==>
              && (cut <==> ReturnCut(d, original, plan, outward))
              && (trimmed <==> ReturnTrimmed(d, original, plan, outward))
    ensures !plan.rejoinsQueue ==> !cut && !trimmed
    ensures result.Options? ==> AllDestinations(d, original, plan, result.options)
    ensures result.Options? && !cut && !trimmed && OriginalsOwned(d, original) ==>
              Covered(d, original, plan, outward, result.options)
    ensures AllUnlimited(d, original, plan) ==> !cut && !trimmed
    ensures result.Refused? <==> plan.rejoinsQueue && ReturnRefusal(d, original, plan, outward.intermediates).Some?
    ensures result.Refused? ==> ReturnRefusal(d, original, plan, outward.intermediates) == Some(result.refusal)
  {
    hide GoodOption, GoodDestination, Passes, Covered, Unlimited, OriginalsOwned, ReturnRefusal, SearchUncut,
      SearchTrimmed, Passing, WaysBack;
    if plan.rejoinsQueue {
      result, cut, trimmed := ReturnOptions(d, original, plan, outward);
      return;
    }
    OptionsByAreGood(d, original, plan, outward);
    if OriginalsOwned(d, original) {
      OptionsByCover(d, original, plan, outward);
    }
    var o := Straight(original, plan, outward);
    return Options(if Passes(d, original, plan, o.route) then [o] else []), false, false;
  }

  /** Routes into the block and back.  Every option has the promised shape and
      safety, one a count; they are the best of all combinations the two
      searches offer; where the searches drop nothing, every good option is
      matched; none exists for a request that the preflight rejects. */
  method SelectDestinationBlockRoutes(d: Destination, original: seq<nat>, plan: BlockPlan)
    returns (result: DestinationResult, ghost cut: bool, ghost trimmed: bool)
    ensures RefusedRightly(d, original, plan, result)
    ensures PlanFits(original, plan) && GapsMatch(d, original, plan) && Sound(d, original, plan) &&
            plan.maxAddedTracks <= 8 && d.candidateLimit >= 1 && d.beamWidth >= 1 ==>
              result.Options?
    ensures PlanFits(original, plan) && GapsMatch(d, original, plan) && result.Refused? ==>
              RefusedFor(d, original, plan, result.refusal)
    ensures PlanFits(original, plan) && result.Options? ==>
              && GapsMatch(d, original, plan)
              && Admitted(d, original, plan)
              && BestOf(AllOptions(d, original, plan), result.options)
              && (cut <==> !BridgesUncut(d, original, plan))
              && (trimmed <==> BridgesTrimmed(d, original, plan))
    ensures PlanFits(original, plan) && result.Options? ==>
              && AllDestinations(d, original, plan, result.options)
              && (forall i, j | 0 <= i < j < |result.options| :: result.options[i].added < result.options[j].added)
    ensures PlanFits(original, plan) && GapsMatch(d, original, plan) && AllUnlimited(d, original, plan) ==>
              !cut && !trimmed
    ensures PlanFits(original, plan) && result.Options? && !cut && d.variationPercent == 0 ==>
              BestChosen(d, original, plan, result.options)
    ensures PlanFits(original, plan) && result.Options? && !cut && !trimmed && OriginalsOwned(d, original) ==>
              Matched(d, original, plan, result.options)
    ensures PlanFits(original, plan) && result.Options? && OriginalsOwned(d, original) &&
            OutwardMinimum(d.policy, d.history + Lead(original, plan), BlockOf(original, plan)) +
            RejoinMinimum(d.policy, BlockOf(original, plan), Tail(original, plan)) > plan.maxAddedTracks ==>
              result.options == []
  {
    hide GoodOption, GoodDestination, AllGood, OutwardMinimum, RejoinMinimum, OriginalsOwned, Covered, Unlimited,
      Matched, Feasible, Validate, SearchUncut, SearchTrimmed, LeastFeasible, BestOf, BridgesUncut, BridgesTrimmed,
      Admitted, BestChosen, OptionsOf, KeyLe, RefusedFor, StructuralBound, OptionsBelow, Sound, BridgeRefusedRightly,
      RefusedRightly, Consistent;
    cut, trimmed := false, false;
    ConsistentMeaning(d, original, plan);
    if !PlanFits(original, plan) || !GapsMatch(d, original, plan) {
      InconsistentRightly(d, original, plan);
      return Refused(InconsistentAnchors), cut, trimmed;
    }
    NotRefusedWhenSound(d, original, plan);
    if plan.maxAddedTracks > MAX_BRIDGES {
      OutwardRefusalOrder(d, original, plan);
      RefusedOutward(d, original, plan);
      RefusedForRightly(d, original, plan, BudgetTooLarge);
      return Refused(BudgetTooLarge), cut, trimmed;
    }
    var bridges;
    bridges, cut, trimmed := BridgeRoutes(d, OutwardSource(original, plan), d.gaps[0], plan.maxAddedTracks,
                                          d.unavailable, 0);
    if bridges.BridgesRefused? {
      RefusedOutward(d, original, plan);
      RefusedForRightly(d, original, plan, bridges.refusal);
      return Refused(bridges.refusal), cut, trimmed;
    }
    var all;
    all, cut, trimmed := JoinOptions(d, original, plan, bridges.options, cut, trimmed);
    if all.Refused? {
      RefusedForRightly(d, original, plan, all.refusal);
      return all, cut, trimmed;
    }
    DestinationBudget(d, original, plan, all.options);
    var best := BestByCount(all.options, plan.maxAddedTracks);
    BestAreGood(d, original, plan, all.options, best);
    if !cut && d.variationPercent == 0 {
      BestAreChosen(d, original, plan, best);
    }
    if !cut && !trimmed && OriginalsOwned(d, original) {
      BestMatch(d, original, plan, bridges.options, all.options, best);
    }
    if OriginalsOwned(d, original) &&
       OutwardMinimum(d.policy, d.history + Lead(original, plan), BlockOf(original, plan)) +
       RejoinMinimum(d.policy, BlockOf(original, plan), Tail(original, plan)) > plan.maxAddedTracks {
      RejectedRequestHasNoOption(d, original, plan, best);
    }
    AdmittedRightly(d, original, plan, best);
    return Options(best), cut, trimmed;
  }

  lemma NotRefusedWhenSound(d: Destination, original: seq<nat>, plan: BlockPlan)
    requires PlanFits(original, plan) && GapsMatch(d, original, plan)
    ensures Sound(d, original, plan) && plan.maxAddedTracks <= 8 && d.candidateLimit >= 1 && d.beamWidth >= 1 ==>
              forall refusal :: !RefusedFor(d, original, plan, refusal)
  {
    hide RefusedFor, Sound;
    if Sound(d, original, plan) && plan.maxAddedTracks <= 8 && d.candidateLimit >= 1 && d.beamWidth >= 1 {
      forall refusal ensures !RefusedFor(d, original, plan, refusal) {
        SoundIsServed(d, original, plan, refusal);
      }
    }
  }

  lemma RefusedOutward(d: Destination, original: seq<nat>, plan: BlockPlan)
    requires PlanFits(original, plan) && GapsMatch(d, original, plan) && OutwardRefusal(d, original, plan).Some?
    ensures RefusedFor(d, original, plan, OutwardRefusal(d, original, plan).value)
  {
    hide OutwardRefusal;
  }

  lemma BestAreGood(d: Destination, original: seq<nat>, plan: BlockPlan, options: seq<DestinationOption>,
                    best: seq<DestinationOption>)
    requires PlanFits(original, plan) && AllDestinations(d, original, plan, options) && BestOf(options, best)
    ensures AllDestinations(d, original, plan, best)
    ensures forall i, j | 0 <= i < j < |best| :: best[i].added < best[j].added
  {
    hide GoodDestination, KeyLe;
  }

  /** Every way in followed, in order. */
  method JoinOptions(d: Destination, original: seq<nat>, plan: BlockPlan, outwards: seq<PathOption>, ghost cut0: bool,
                     ghost trimmed0: bool)
    returns (result: DestinationResult, ghost cut: bool, ghost trimmed: bool)
    requires PlanFits(original, plan) && GapsMatch(d, original, plan) && outwards == WaysIn(d, original, plan)
    requires OutwardRefusal(d, original, plan).None? && AllGood(OutwardRequest(d, original, plan), 0, outwards)
    requires cut0 <==> !SearchUncut(OutwardRequest(d, original, plan), 0)
    requires trimmed0 <==> SearchTrimmed(OutwardRequest(d, original, plan), 0)
    requires AllUnlimited(d, original, plan) ==> !cut0 && !trimmed0
    ensures result.Options? ==>
              && Admitted(d, original, plan)
              && result.options == AllOptions(d, original, plan) && AllDestinations(d, original, plan, result.options)
              && (cut <==> !BridgesUncut(d, original, plan)) && (trimmed <==> BridgesTrimmed(d, original, plan))
    ensures result.Options? && !cut && !trimmed && OriginalsOwned(d, original) ==>
              forall j | 0 <= j < |outwards| :: Covered(d, original, plan, outwards[j], result.options)
    ensures result.Refused? ==> RefusedFor(d, original, plan, result.refusal)
    ensures (cut0 ==> cut) && (trimmed0 ==> trimmed)
    ensures AllUnlimited(d, original, plan) ==> !cut && !trimmed
  {
    hide GoodOption, GoodDestination, AllGood, OriginalsOwned, Covered, AllUnlimited, SearchUncut, SearchTrimmed,
      ReturnCut, ReturnTrimmed, OutwardRefusal, ReturnRefusal, OptionsBy, Context, ReturnRequest, OutwardRequest,
      GapsMatch, Bridged;
    cut, trimmed := cut0, trimmed0;
    var options: seq<DestinationOption> := [];
    for k := 0 to |outwards|
      invariant options == OptionsOf(d, original, plan, outwards[..k])
      invariant AllDestinations(d, original, plan, options)
      invariant AllUnlimited(d, original, plan) ==> !cut && !trimmed
      invariant !cut && !trimmed && OriginalsOwned(d, original) ==>
                  forall j | 0 <= j < k :: Covered(d, original, plan, outwards[j], options)
      invariant !plan.rejoinsQueue ==> cut == cut0 && trimmed == trimmed0
      invariant (cut0 ==> cut) && (trimmed0 ==> trimmed)
      invariant plan.rejoinsQueue ==>
                  forall j | 0 <= j < k :: ReturnRefusal(d, original, plan, outwards[j].intermediates).None?
      invariant plan.rejoinsQueue ==>
                  && (cut <==> cut0 || (exists j :: 0 <= j < k && ReturnCut(d, original, plan, outwards[j])))
                  && (trimmed <==>
                        trimmed0 || (exists j :: 0 <= j < k && ReturnTrimmed(d, original, plan, outwards[j])))
    {
      GoodMember(OutwardRequest(d, original, plan), 0, outwards, k);
      var via;
      ghost var cutHere, trimmedHere;
      via, cutHere, trimmedHere := OptionsVia(d, original, plan, outwards[k]);
      cut, trimmed := cut || cutHere, trimmed || trimmedHere;
      if via.Refused? {
        return via, cut, trimmed;
      }
      assert outwards[..k + 1][..k] == outwards[..k];
      forall j | 0 <= j <= k && !cut && !trimmed && OriginalsOwned(d, original)
        ensures Covered(d, original, plan, outwards[j], options + via.options)
      {
        CoveredGrows(d, original, plan, outwards[j], options, via.options);
      }
      options := options + via.options;
    }
    assert outwards[..|outwards|] == outwards;
    return Options(options), cut, trimmed;
  }

  lemma OutwardRefusalOrder(d: Destination, original: seq<nat>, plan: BlockPlan)
    requires PlanFits(original, plan) && GapsMatch(d, original, plan) && plan.maxAddedTracks > MAX_BRIDGES
    ensures OutwardRefusal(d, original, plan) == Some(BudgetTooLarge)
  {
    OutwardSplits(original, plan);
  }
}
