/** A whole update of the default pipeline: which placement it ends with, and where. */
module PopperUpdate {
  import opened Geometry
  import opened PopperPipeline
  import opened PopperSearch
  import opened PopperSpec
  import opened PopperTheorems

  lemma NoInner(inst: Instance, pre: seq<Modifier>, core: seq<Modifier>, flip: Modifier, post: seq<Modifier>)
    requires IsDefaultPipeline(inst.modifiers, pre, core, flip, post)
    ensures !IsEnabled(inst.modifiers, Inner)
  {
    forall m | m in inst.modifiers
      ensures m.name == Inner ==> !m.enabled
    {
      InOneOfFour(m, pre, core, [flip], post);
      assert m in core ==> m == core[0] || m == core[1] || m == core[2];
    }
  }

  lemma SomeEnabledInCore(pre: seq<Modifier>, core: seq<Modifier>)
    requires IsCore(core)
    ensures SomeEnabled(pre + core)
  {
    assert (pre + core)[|pre|] == core[0];
  }

  lemma InOneOfFour<T>(x: T, a: seq<T>, b: seq<T>, c: seq<T>, d: seq<T>)
    requires x in a + b + c + d
    ensures x in a || x in b || x in c || x in d
  {
    assert x in a + b + c || x in d;
    assert x in a + b + c ==> x in a + b || x in c;
  }

  lemma FlipIsNormal(inst: Instance, pre: seq<Modifier>, core: seq<Modifier>, flip: Modifier, d: Data)
    requires IsCore(core) && Before(inst.modifiers, Flip) == pre + core && flip.name == Flip && flip.enabled
    requires Normalise(d) == d
    ensures Normalise(FlipData(inst, d)) == FlipData(inst, d)
  {
    var restarted, start := FlipEnds(inst, pre, core, flip, d);
    CoreIsFresh(inst, pre, core, start);
  }

  /** Where the popper stands if the `j`-th entry alone had been asked for; the first is the original placement. */
  function Standing(inst: Instance, d: Data, order: seq<Placement>, start: nat, j: nat): Data {
    Restart(inst, d, if start < j < |order| then order[j].Append(d.placement.variation) else d.placement)
  }

  /** The `k`-th entry is the first that stands without conflict, or the last of all. */
  ghost predicate IsFirstFree(inst: Instance, d: Data, order: seq<Placement>, start: nat, k: nat) {
    && start <= k < |order|
    && (forall j :: start <= j < k ==> Conflict(inst, Standing(inst, d, order, start, j)))
    && (k == |order| - 1 || !Conflict(inst, Standing(inst, d, order, start, k)))
  }

  /** The run up to `flip` is the one a restart at the same placement would make. */
  lemma FirstPass(inst: Instance, pre: seq<Modifier>, core: seq<Modifier>, d: Data)
    requires IsCore(core) && Before(inst.modifiers, Flip) == pre + core
    requires !IsEnabled(inst.modifiers, Inner)
    requires d.popper.SameBox(Beside(inst.size, d.reference, d.placement.base, d.popper)) && d.reference.Fresh()
    ensures var d1 := RunList(inst, pre + core, d);
            && Normalise(d1) == d1 && d1.reference == d.reference
            && d1.placement == d.placement && d1.flipped == d.flipped && d1.originalPlacement == d.originalPlacement
            && SamePosition(d1, Restart(inst, d, d.placement))
  {
    BeforeHasNoFlip(inst.modifiers);
    BeforeFlipKeepsPlacement(inst);
    PlacementIsKept(inst, pre + core, d);
    ReferenceStaysFresh(inst, pre + core, d);
    assert (pre + core)[|pre|] == core[0];
    RunListIgnoresHistory(inst, pre + core, d, Placed(inst, d, d.placement));
    CoreIsFresh(inst, pre, core, d);
  }

  /** The search after the first pass, in terms of where the entries alone would stand. */
  lemma SearchFromFirst(inst: Instance, d: Data, d1: Data, order: seq<Placement>, start: nat) returns (k: nat)
    requires !IsEnabled(inst.modifiers, Inner) && !inst.flipVariations && SomeEnabled(Before(inst.modifiers, Flip))
    requires order == FlipOrder(inst, d.placement.base) && StartsAt(order, d.placement.base, start)
    requires d.reference.Fresh() && d1.reference == d.reference && !d1.flipped && d1.placement == d.placement
    requires SamePosition(d1, Restart(inst, d, d.placement))
    ensures IsFirstFree(inst, d, order, start, k)
    ensures SamePosition(FlipData(inst, d1), Standing(inst, d, order, start, k))
    ensures SamePosition(FlipData(inst, d1), CandidateAt(inst, d1, order, start, k))
  {
    k := FlipFindsFirstPlacement(inst, d1, start);
    forall j | start <= j <= k
      ensures SamePosition(CandidateAt(inst, d1, order, start, j), Standing(inst, d, order, start, j))
      ensures Conflict(inst, CandidateAt(inst, d1, order, start, j))
              <==> Conflict(inst, Standing(inst, d, order, start, j))
    {
      if start < j {
        RestartIgnoresHistory(inst, d1, d, order[j].Append(d.placement.variation));
      }
    }
  }

  /**
   * A whole update of the default pipeline, with an arrow or without: it ends at the first placement
   * of the fallback list, from the original one on, whose own position after all modifiers has no
   * conflict, or at the last in the list. The popper stands where that placement alone would have
   * put it, which with an arrow and enough room is settled.
   */
  lemma UpdateFindsFirstFree(inst: Instance, pre: seq<Modifier>, core: seq<Modifier>, flip: Modifier,
                             post: seq<Modifier>, placement: Placement, reference: Rect, previous: Rect, start: nat)
    returns (k: nat)
    requires IsDefaultPipeline(inst.modifiers, pre, core, flip, post) && flip.enabled && !inst.flipVariations
    requires reference.Fresh() && StartsAt(FlipOrder(inst, placement.base), placement.base, start)
    ensures var order := FlipOrder(inst, placement.base);
            var d := FirstData(inst, placement, reference, previous);
            var r := RunList(inst, inst.modifiers, d);
            && IsFirstFree(inst, d, order, start, k)
            && SamePosition(r, Standing(inst, d, order, start, k))
            && (Roomy(inst, reference) ==> Settled(inst, r))
  {
    var order, d := FlipOrder(inst, placement.base), FirstData(inst, placement, reference, previous);
    DefaultPipelineFacts(inst.modifiers, pre, core, flip, post);
    NoInner(inst, pre, core, flip, post);
    SomeEnabledInCore(pre, core);
    k := UpdateSearches(inst, pre, core, flip, post, d, order, start);
    if Roomy(inst, reference) {
      assert ClientRect(d.reference) == reference;
      DefaultPipelineSettles(inst, pre, core, flip, post, d);
    }
  }

  lemma UpdateSearches(inst: Instance, pre: seq<Modifier>, core: seq<Modifier>, flip: Modifier, post: seq<Modifier>,
                       d: Data, order: seq<Placement>, start: nat) returns (k: nat)
    requires IsDefaultPipeline(inst.modifiers, pre, core, flip, post) && flip.enabled && !inst.flipVariations
    requires Before(inst.modifiers, Flip) == pre + core && !IsEnabled(inst.modifiers, Inner) && SomeEnabled(pre + core)
    requires order == FlipOrder(inst, d.placement.base) && StartsAt(order, d.placement.base, start)
    requires d.reference.Fresh() && !d.flipped
    requires d.popper.SameBox(Beside(inst.size, d.reference, d.placement.base, d.popper))
    ensures IsFirstFree(inst, d, order, start, k)
    ensures SamePosition(RunList(inst, inst.modifiers, d), Standing(inst, d, order, start, k))
  {
    var d1 := RunList(inst, pre + core, d);
    FirstPass(inst, pre, core, d);
    k := SearchFromFirst(inst, d, d1, order, start);
    FlipIsNormal(inst, pre, core, flip, d1);
    RunThenPost(inst, pre, core, flip, post, d);
    PostKeepsPosition(inst, post, FlipData(inst, d1));
  }

  // ---------------------------------------------------------------- What the caller asked for

  /**
   * Whatever the fallback list: if the placement asked for has no conflict and its variation no reason
   * to change, the update keeps it, and the popper stands there.
   */
  lemma UpdateKeepsFree(inst: Instance, pre: seq<Modifier>, core: seq<Modifier>, flip: Modifier, post: seq<Modifier>,
                        placement: Placement, reference: Rect, previous: Rect)
    requires IsDefaultPipeline(inst.modifiers, pre, core, flip, post) && reference.Fresh()
    requires var own := Restart(inst, FirstData(inst, placement, reference, previous), placement);
             !Conflict(inst, own) && !FlipsVariation(inst, placement.base, placement.variation, own.popper)
    ensures var d := FirstData(inst, placement, reference, previous);
            var r := RunList(inst, inst.modifiers, d);
            r.placement == placement && SamePosition(r, Restart(inst, d, placement))
  {
    var d := FirstData(inst, placement, reference, previous);
    var d1 := RunList(inst, pre + core, d);
    DefaultPipelineFacts(inst.modifiers, pre, core, flip, post);
    NoInner(inst, pre, core, flip, post);
    FirstPass(inst, pre, core, d);
    FlipLoopRests(inst, Attempt(d1, placement.variation), FlipOrder(inst, placement.base), 0, PlainAt(placement.base));
    RunAppend(inst, pre + core + [flip], post, d);
    RunAppend(inst, pre + core, [flip], d);
    RunSingle(inst, flip, d1);
    PostKeepsPosition(inst, post, d1);
  }

  /** Where the popper stands if a placement had been asked for. */
  function Alone(inst: Instance, placement: Placement, reference: Rect, previous: Rect): Data {
    Restart(inst, FirstData(inst, placement, reference, previous), placement)
  }

  lemma AloneStands(inst: Instance, placement: Placement, other: Placement, reference: Rect, previous: Rect)
    requires SomeEnabled(Before(inst.modifiers, Flip)) && reference.Fresh()
    ensures SamePosition(Alone(inst, other, reference, previous),
                         Restart(inst, FirstData(inst, placement, reference, previous), other))
  {
    RestartIgnoresHistory(inst, FirstData(inst, other, reference, previous),
                          FirstData(inst, placement, reference, previous), other);
  }

  /**
   * The search for a given list of plain sides that begins with the side asked for: the update ends at
   * the first of them where the popper alone would have no conflict, or at the last, with the
   * variation asked for.
   */
  lemma UpdateSearchesSides(inst: Instance, pre: seq<Modifier>, core: seq<Modifier>, flip: Modifier,
                            post: seq<Modifier>, sides: seq<Side>, variation: Variation,
                            reference: Rect, previous: Rect) returns (k: nat)
    requires IsDefaultPipeline(inst.modifiers, pre, core, flip, post) && flip.enabled && !inst.flipVariations
    requires reference.Fresh() && sides != []
    requires inst.behavior == Fallbacks(seq(|sides|, j requires 0 <= j < |sides| => Placement(sides[j], Plain)))
    ensures k < |sides|
    ensures forall j :: 0 <= j < k ==> Conflict(inst, Alone(inst, Placement(sides[j], variation), reference, previous))
    ensures k == |sides| - 1 || !Conflict(inst, Alone(inst, Placement(sides[k], variation), reference, previous))
    ensures var d := FirstData(inst, Placement(sides[0], variation), reference, previous);
            var r := RunList(inst, inst.modifiers, d);
            && r.placement == Placement(sides[k], variation)
            && SamePosition(r, Alone(inst, Placement(sides[k], variation), reference, previous))
  {
    var placement := Placement(sides[0], variation);
    var d := FirstData(inst, placement, reference, previous);
    var order := FlipOrder(inst, sides[0]);
    k := UpdateFindsFirstFree(inst, pre, core, flip, post, placement, reference, previous, 0);
    DefaultPipelineFacts(inst.modifiers, pre, core, flip, post);
    NoInner(inst, pre, core, flip, post);
    SomeEnabledInCore(pre, core);
    forall j | 0 <= j <= k
      ensures SamePosition(Standing(inst, d, order, 0, j),
                           Alone(inst, Placement(sides[j], variation), reference, previous))
      ensures Conflict(inst, Standing(inst, d, order, 0, j))
              <==> Conflict(inst, Alone(inst, Placement(sides[j], variation), reference, previous))
    {
      AloneStands(inst, placement, Placement(sides[j], variation), reference, previous);
    }
    RetryPlacement(inst, FirstData(inst, Placement(sides[k], variation), reference, previous),
                   Placement(sides[k], variation));
  }

  /** The default behaviour: the side asked for if the popper has no conflict there, otherwise the opposite one. */
  lemma UpdateTriesOpposite(inst: Instance, pre: seq<Modifier>, core: seq<Modifier>, flip: Modifier,
                            post: seq<Modifier>, side: Side, variation: Variation, reference: Rect, previous: Rect)
    requires IsDefaultPipeline(inst.modifiers, pre, core, flip, post) && flip.enabled && !inst.flipVariations
    requires reference.Fresh() && inst.behavior == FlipToOpposite
    ensures var conflict := Conflict(inst, Alone(inst, Placement(side, variation), reference, previous));
            var opposite := match side case Top => Bottom case Bottom => Top case Left => Right case Right => Left;
            var r := RunList(inst, inst.modifiers, FirstData(inst, Placement(side, variation), reference, previous));
            && r.placement == Placement(if conflict then opposite else side, variation)
            && SamePosition(r, Alone(inst, r.placement, reference, previous))
  {
    var placement := Placement(side, variation);
    var d := FirstData(inst, placement, reference, previous);
    var k := UpdateFindsFirstFree(inst, pre, core, flip, post, placement, reference, previous, 0);
    DefaultPipelineFacts(inst.modifiers, pre, core, flip, post);
    NoInner(inst, pre, core, flip, post);
    SomeEnabledInCore(pre, core);
    var opposite := Placement(Opposite(side), variation);
    AloneStands(inst, placement, opposite, reference, previous);
    RetryPlacement(inst, FirstData(inst, opposite, reference, previous), opposite);
    RetryPlacement(inst, d, placement);
    assert Standing(inst, d, FlipOrder(inst, side), 0, 0) == Restart(inst, d, placement);
  }

  /** A fallback list that names the side asked for nowhere before its end leaves the placement alone. */
  lemma UpdateIgnoresFallbacks(inst: Instance, pre: seq<Modifier>, core: seq<Modifier>, flip: Modifier,
                               post: seq<Modifier>, order: seq<Placement>, placement: Placement, reference: Rect,
                               previous: Rect)
    requires IsDefaultPipeline(inst.modifiers, pre, core, flip, post) && reference.Fresh()
    requires inst.behavior == Fallbacks(order)
    requires forall j :: 0 <= j < |order| - 1 ==> order[j] != Placement(placement.base, Plain)
    ensures var r := RunList(inst, inst.modifiers, FirstData(inst, placement, reference, previous));
            r.placement == placement && SamePosition(r, Alone(inst, placement, reference, previous))
  {
    var d := FirstData(inst, placement, reference, previous);
    var d1 := RunList(inst, pre + core, d);
    DefaultPipelineFacts(inst.modifiers, pre, core, flip, post);
    NoInner(inst, pre, core, flip, post);
    FirstPass(inst, pre, core, d);
    FlipNeedsCurrent(inst, d1);
    RunAppend(inst, pre + core + [flip], post, d);
    RunAppend(inst, pre + core, [flip], d);
    RunSingle(inst, flip, d1);
    PostKeepsPosition(inst, post, d1);
  }

  // ---------------------------------------------------------------- Every fallback list

  /**
   * A whole update of the default pipeline, for every fallback list and with `flipVariations` on or
   * off: the popper stands where the placement it ends with would have put it by itself.
   */
  lemma UpdateStandsAsPlaced(inst: Instance, pre: seq<Modifier>, core: seq<Modifier>, flip: Modifier,
                             post: seq<Modifier>, placement: Placement, reference: Rect, previous: Rect)
    requires IsDefaultPipeline(inst.modifiers, pre, core, flip, post) && reference.Fresh()
    ensures var d := FirstData(inst, placement, reference, previous);
            IsOwnPosition(inst, d, RunList(inst, inst.modifiers, d))
  {
    var d := FirstData(inst, placement, reference, previous);
    DefaultPipelineFacts(inst.modifiers, pre, core, flip, post);
    NoInner(inst, pre, core, flip, post);
    var start := DefaultPipelineEnds(inst, pre, core, flip, post, d);
    assert ClientRect(reference) == reference;
    PassIsOwnPosition(inst, pre, core, d, start);
  }

  lemma PassIsOwnPosition(inst: Instance, pre: seq<Modifier>, core: seq<Modifier>, d: Data, start: Data)
    requires IsCore(core) && Before(inst.modifiers, Flip) == pre + core && !IsEnabled(inst.modifiers, Inner)
    requires d.reference.Fresh() && StandsBeside(inst, start, d.reference)
    ensures IsOwnPosition(inst, d, RunList(inst, pre + core, start))
  {
    BeforeHasNoFlip(inst.modifiers);
    BeforeFlipKeepsPlacement(inst);
    PlacementIsKept(inst, pre + core, start);
    SomeEnabledInCore(pre, core);
    RunListIgnoresHistory(inst, pre + core, start, Placed(inst, d, start.placement));
    ReferenceStaysFresh(inst, pre + core, start);
  }

  /** Two data with the same reference have the same own positions. */
  lemma OwnPositionAgrees(inst: Instance, d: Data, d': Data, e: Data)
    requires SomeEnabled(Before(inst.modifiers, Flip)) && d.reference.Fresh() && d'.reference == d.reference
    requires IsOwnPosition(inst, d, e)
    ensures IsOwnPosition(inst, d', e)
  {
    RestartIgnoresHistory(inst, d, d', e.placement);
  }

  /** The trail of an update begins at the original placement and visits own positions only. */
  ghost predicate IsUpdateTrail(inst: Instance, d: Data, order: seq<Placement>, start: nat, trail: seq<Visit>) {
    && IsTrail(inst, order, trail) && IsEnd(inst, order, Last(trail))
    && trail[0].at == start && trail[0].attempt.data.placement == d.placement
    && trail[0].attempt.variation == d.placement.variation
    && forall j :: 0 <= j < |trail| ==> IsOwnPosition(inst, d, trail[j].attempt.data)
  }

  /**
   * The search of such an update: from the original placement on it makes the visits of a trail, all
   * of them judged by where their own placement puts the popper, and accepts the last.
   */
  lemma UpdateFollowsTrail(inst: Instance, pre: seq<Modifier>, core: seq<Modifier>, flip: Modifier,
                           post: seq<Modifier>, placement: Placement, reference: Rect, previous: Rect, start: nat)
    returns (trail: seq<Visit>)
    requires IsDefaultPipeline(inst.modifiers, pre, core, flip, post) && flip.enabled
    requires reference.Fresh() && StartsAt(FlipOrder(inst, placement.base), placement.base, start)
    ensures var order, d := FlipOrder(inst, placement.base), FirstData(inst, placement, reference, previous);
            && IsUpdateTrail(inst, d, order, start, trail)
            && SamePosition(RunList(inst, inst.modifiers, d),
                            Accept(inst, Last(trail).attempt, Last(trail).at == |order| - 1))
  {
    var order, d := FlipOrder(inst, placement.base), FirstData(inst, placement, reference, previous);
    var d1 := RunList(inst, pre + core, d);
    DefaultPipelineFacts(inst.modifiers, pre, core, flip, post);
    NoInner(inst, pre, core, flip, post);
    SomeEnabledInCore(pre, core);
    FirstPass(inst, pre, core, d);
    trail := FlipFollowsTrail(inst, d1, start);
    TrailOfOwnPositions(inst, d, d1, order, trail);
    FlipIsNormal(inst, pre, core, flip, d1);
    RunThenPost(inst, pre, core, flip, post, d);
    PostKeepsPosition(inst, post, FlipData(inst, d1));
  }

  lemma TrailOfOwnPositions(inst: Instance, d: Data, d1: Data, order: seq<Placement>, trail: seq<Visit>)
    requires SomeEnabled(Before(inst.modifiers, Flip)) && !IsEnabled(inst.modifiers, Inner)
    requires d.reference.Fresh() && d1.reference == d.reference && SamePosition(d1, Restart(inst, d, d1.placement))
    requires IsTrail(inst, order, trail) && trail[0].attempt.data == d1
    ensures forall j :: 0 <= j < |trail| ==> IsOwnPosition(inst, d, trail[j].attempt.data)
  {
    forall j | 0 <= j < |trail|
      ensures IsOwnPosition(inst, d, trail[j].attempt.data)
    {
      if j > 0 {
        TrailFromScratch(inst, d1, order, trail, j);
        OwnPositionAgrees(inst, d1, d, trail[j].attempt.data);
      }
    }
  }
}
