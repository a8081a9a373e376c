/** What whole runs of the modifier pipeline keep and reach. */
module PopperPipeline {
  import opened Geometry
  import opened PopperSpec
  import opened PopperTheorems
  import opened Optional

  // ---------------------------------------------------------------- Conservation

  /** What every run leaves alone. */
  ghost predicate Conserves(inst: Instance, d: Data, r: Data) {
    && r.popper.HasSize(inst.size)
    && r.reference.SameBox(d.reference)
    && r.originalPlacement == d.originalPlacement
    && (d.flipped ==> r.flipped)
    && (!IsEnabled(inst.modifiers, Inner) && !r.flipped ==> r.placement == d.placement)
  }

  /** The offset modifier moves the popper by some amounts. */
  lemma OffsetMoves(inst: Instance, d: Data) returns (along: real, away: real)
    ensures Plainly(inst, Offset, d) == d.(popper := OffsetRect(d.placement.base, d.popper, along, away))
  {
    var amounts := OffsetAmounts(inst, d);
    along, away := amounts.0, amounts.1;
  }

  lemma PlainlyConserves(inst: Instance, m: Modifier, d: Data)
    requires d.popper.HasSize(inst.size) && m.name != Flip && m.enabled && m in inst.modifiers
    ensures Conserves(inst, d, Plainly(inst, m.name, d))
  {
    match m.name {
      case Shift =>
      case Offset =>
        var along, away := OffsetMoves(inst, d);
      case PreventOverflow =>
        CheckSidesKeeps(inst.priority, d.popper, inst.overflowBounds, inst.escapeWithReference);
      case KeepTogether =>
      case Arrow =>
      case Inner =>
      case Hide =>
    }
  }

  lemma {:induction false} RunOneConserves(inst: Instance, m: Modifier, d: Data)
    requires d.popper.HasSize(inst.size) && m in inst.modifiers
    ensures Conserves(inst, d, RunOne(inst, m, d))
    decreases if m.name == Flip then 1 else 0, 0, 8
  {
    if m.enabled {
      if m.name == Flip {
        var n := Normalise(d);
        if !FlipIsSkipped(inst, n) {
          FlipLoopConserves(inst, n, FlipOrder(inst, n.placement.base), 0, PlainAt(n.placement.base),
                            n.placement.variation);
        }
      } else {
        PlainlyConserves(inst, m, Normalise(d));
      }
    }
  }

  /**
   * For any list drawn from the modifiers, in any order: the popper keeps its measured size, the
   * reference does not move, and without `inner` the placement changes only by flipping.
   */
  lemma {:induction false} RunListConserves(inst: Instance, modifiers: seq<Modifier>, d: Data)
    requires d.popper.HasSize(inst.size) && forall m <- modifiers :: m in inst.modifiers
    ensures Conserves(inst, d, RunList(inst, modifiers, d))
    decreases if HasFlip(modifiers) then 1 else 0, |modifiers|, 9
  {
    if modifiers != [] {
      RunOneConserves(inst, modifiers[0], d);
      RunListConserves(inst, modifiers[1..], RunOne(inst, modifiers[0], d));
    }
  }

  lemma RestartConserves(inst: Instance, d: Data, placement: Placement)
    ensures Conserves(inst, d, Restart(inst, d, placement))
    decreases 0, |inst.modifiers|, 10
  {
    BeforeHasNoFlip(inst.modifiers);
    RunListConserves(inst, Before(inst.modifiers, Flip),
                     Placed(inst, d, placement));
  }

  lemma {:induction false} FlipLoopConserves(inst: Instance, d: Data, order: seq<Placement>, i: nat,
                                             local: Placement, variation: Variation)
    requires d.popper.HasSize(inst.size)
    ensures Conserves(inst, d, FlipLoop(inst, d, order, i, local, variation))
    decreases 1, 0, 6, |order| - i
  {
    if i < |order| {
      if local != order[i] || |order| == i + 1 {
        FlipLoopConserves(inst, d, order, i + 1, local, variation);
      } else {
        var base := d.placement.base;
        var conflict := Conflict(inst, d);
        var flipVariation := FlipsVariation(inst, base, variation, d.popper);
        var local' := if conflict then order[i + 1] else PlainAt(base);
        var variation' := if flipVariation then OppositeVariation(variation) else variation;
        if conflict || flipVariation {
          var d' := Restart(inst, d, local'.Append(variation'));
          RestartConserves(inst, d, local'.Append(variation'));
          FlipLoopConserves(inst, d', order, i + 1, local', variation');
        } else {
          FlipLoopConserves(inst, d, order, i + 1, local', variation');
        }
      }
    }
  }

  // ---------------------------------------------------------------- Lists without flip

  lemma {:induction false} RunAppend(inst: Instance, a: seq<Modifier>, b: seq<Modifier>, d: Data)
    ensures RunList(inst, a + b, d) == RunList(inst, b, RunList(inst, a, d))
    decreases |a|
  {
    if a == [] {
      assert a + b == b;
    } else {
      assert (a + b)[1..] == a[1..] + b;
      RunAppend(inst, a[1..], b, RunOne(inst, a[0], d));
    }
  }

  /** No enabled `flip` or `inner` in the list. */
  ghost predicate KeepsPlacement(modifiers: seq<Modifier>) {
    forall i :: 0 <= i < |modifiers| ==>
      modifiers[i].name != Flip && (modifiers[i].name == Inner ==> !modifiers[i].enabled)
  }

  lemma {:induction false} PlacementIsKept(inst: Instance, modifiers: seq<Modifier>, d: Data)
    requires KeepsPlacement(modifiers)
    ensures var r := RunList(inst, modifiers, d);
            r.placement == d.placement && r.flipped == d.flipped && r.originalPlacement == d.originalPlacement
    decreases |modifiers|
  {
    if modifiers != [] {
      PlacementIsKept(inst, modifiers[1..], RunOne(inst, modifiers[0], d));
    }
  }

  lemma BeforeFlipKeepsPlacement(inst: Instance)
    requires !IsEnabled(inst.modifiers, Inner)
    ensures KeepsPlacement(Before(inst.modifiers, Flip))
  {
    BeforeHasNoFlip(inst.modifiers);
    var before := Before(inst.modifiers, Flip);
    forall i | 0 <= i < |before|
      ensures before[i].name == Inner ==> !before[i].enabled
    {
      assert before[i] in inst.modifiers;
    }
  }

  // ---------------------------------------------------------------- preventOverflow, keepTogether, arrow

  /** The three modifiers, in their default order and all enabled. */
  ghost predicate IsCore(core: seq<Modifier>) {
    && |core| == 3
    && core[0].name == PreventOverflow && core[1].name == KeepTogether && core[2].name == Arrow
    && core[0].enabled && core[1].enabled && core[2].enabled
    && core[1].order < core[2].order
  }

  /** What the composition theorem asks of the measurements: the popper fits and the arrow is short enough. */
  ghost predicate Roomy(inst: Instance, reference: Rect) {
    && inst.arrow.Some?
    && !inst.escapeWithReference
    && (forall side :: side in inst.priority)
    && (forall axis ::
          && Fits(inst.size, inst.overflowBounds, axis)
          && 0.0 <= reference.Len(axis)
          && 0.0 <= inst.arrow.value.size.Len(axis)
          && 2.0 * inst.arrow.value.size.Len(axis) <= inst.size.Len(axis) + reference.Len(axis))
  }

  /**
   * What the three modifiers leave: attached to the reference by an arrow length on the cross axis,
   * inside the boundary on the main axis, and inside on the cross axis exactly when that is possible.
   */
  ghost predicate Settled(inst: Instance, d: Data)
    requires inst.arrow.Some?
  {
    SettledRect(inst, d.placement, d.popper, ClientRect(d.reference))
  }

  /** The popper after the three modifiers, in terms of the popper before. */
  function CoreRect(inst: Instance, placement: Placement, p: Rect, reference: Rect): Rect
    requires inst.arrow.Some?
  {
    var prevented := ClientRect(CheckSides(inst.priority, ClientRect(p), inst.overflowBounds,
                                           inst.escapeWithReference));
    var kept := ClientRect(KeepTogetherRect(placement, prevented, reference));
    ClientRect(ArrowRect(placement, kept, reference, inst.arrow.value.size))
  }

  /** The first of the three: its result does not look at the placement. */
  lemma RunPrevent(inst: Instance, m: Modifier, d: Data)
    requires m.enabled && m.name == PreventOverflow
    ensures var r := RunOne(inst, m, d);
            && r.placement == d.placement && r.reference == ClientRect(d.reference)
            && r.popper
               == CheckSides(inst.priority, ClientRect(d.popper), inst.overflowBounds, inst.escapeWithReference)
  {
  }

  lemma RunKeep(inst: Instance, m: Modifier, d: Data)
    requires m.enabled && m.name == KeepTogether
    ensures var r := RunOne(inst, m, d);
            && r.placement == d.placement && r.reference == ClientRect(d.reference)
            && r.popper == KeepTogetherRect(d.placement, ClientRect(d.popper), ClientRect(d.reference))
  {
  }

  lemma RunArrowOf(inst: Instance, m: Modifier, d: Data)
    requires m.enabled && m.name == Arrow
    requires inst.arrow.Some? && IsRequired(inst.modifiers, Arrow, KeepTogether)
    ensures var r := RunOne(inst, m, d);
            && r.placement == d.placement && r.reference == ClientRect(d.reference)
            && r.popper == ClientRect(ArrowRect(d.placement, ClientRect(d.popper), ClientRect(d.reference),
                                                inst.arrow.value.size))
  {
  }

  lemma RunThree(inst: Instance, core: seq<Modifier>, d: Data)
    requires |core| == 3
    ensures RunList(inst, core, d) == RunOne(inst, core[2], RunOne(inst, core[1], RunOne(inst, core[0], d)))
  {
    var d1 := RunOne(inst, core[0], d);
    assert core == [core[0]] + ([core[1]] + [core[2]]);
    RunAppend(inst, [core[0]], [core[1]] + [core[2]], d);
    RunAppend(inst, [core[1]], [core[2]], d1);
    RunSingle(inst, core[0], d);
    RunSingle(inst, core[1], d1);
    RunSingle(inst, core[2], RunOne(inst, core[1], d1));
  }

  lemma CoreRun(inst: Instance, core: seq<Modifier>, d: Data)
    requires IsCore(core) && inst.arrow.Some? && IsRequired(inst.modifiers, Arrow, KeepTogether)
    ensures var r := RunList(inst, core, d);
            && r.placement == d.placement && r.reference == ClientRect(d.reference)
            && r.popper == CoreRect(inst, d.placement, d.popper, ClientRect(d.reference))
  {
    var d1 := RunOne(inst, core[0], d);
    var d2 := RunOne(inst, core[1], d1);
    RunThree(inst, core, d);
    RunPrevent(inst, core[0], d);
    RunKeep(inst, core[1], d1);
    RunArrowOf(inst, core[2], d2);
    ClientRectTwice(d.reference);
    CoreRectOf(inst, d.placement, d.popper, ClientRect(d.reference), d1.popper, d2.popper);
  }

  lemma ClientRectTwice(r: Rect)
    ensures ClientRect(ClientRect(r)) == ClientRect(r)
  {
  }

  lemma CoreRectOf(inst: Instance, placement: Placement, p: Rect, reference: Rect, prevented: Rect, kept: Rect)
    requires inst.arrow.Some?
    requires prevented == CheckSides(inst.priority, ClientRect(p), inst.overflowBounds, inst.escapeWithReference)
    requires kept == KeepTogetherRect(placement, ClientRect(prevented), reference)
    ensures CoreRect(inst, placement, p, reference)
         == ClientRect(ArrowRect(placement, ClientRect(kept), reference, inst.arrow.value.size))
  {
  }

  lemma RunSingle(inst: Instance, m: Modifier, d: Data)
    ensures RunList(inst, [m], d) == RunOne(inst, m, d)
  {
    assert [m][1..] == [];
    assert RunList(inst, [], RunOne(inst, m, d)) == RunOne(inst, m, d);
  }

  /** On the main axis the three modifiers make one move, on the cross axis three. */
  ghost predicate Moved(inst: Instance, placement: Placement, p: Rect, reference: Rect, r: Rect)
    requires inst.arrow.Some?
  {
    var cross, b := CrossAxis(placement), inst.overflowBounds;
    var main, len, a := cross.Other(), inst.size.Len(cross), inst.arrow.value.size.Len(cross);
    var p1 := Clamp(p.Near(cross), b.Near(cross), b.Far(cross) - len);
    var p2 := Clamp(p1, FloorOf(reference.Near(cross)) - len, FloorOf(reference.Far(cross)));
    && r.HasSize(inst.size)
    && r.Near(cross) == Clamp(p2, reference.Near(cross) + a - len, reference.Far(cross) - a)
    && r.Near(main) == Clamp(p.Near(main), b.Near(main), b.Far(main) - inst.size.Len(main))
  }

  lemma CoreRectMoves(inst: Instance, placement: Placement, p: Rect, reference: Rect)
    requires reference.Fresh() && p.HasSize(inst.size) && Roomy(inst, reference)
    ensures Moved(inst, placement, p, reference, CoreRect(inst, placement, p, reference))
  {
    var cross, start := CrossAxis(placement), ClientRect(p);
    var prevented := ClientRect(CheckSides(inst.priority, start, inst.overflowBounds, inst.escapeWithReference));
    PreventedMove(inst, start, reference, X);
    PreventedMove(inst, start, reference, Y);
    assert cross == X || cross == Y;
    KeptThenArrow(placement, prevented, reference, inst.arrow.value.size);
    MovesCompose(inst, placement, p, reference, prevented, CoreRect(inst, placement, p, reference));
  }

  lemma MovesCompose(inst: Instance, placement: Placement, p: Rect, reference: Rect, prevented: Rect, r: Rect)
    requires inst.arrow.Some? && prevented.HasSize(inst.size)
    requires var b := inst.overflowBounds;
             forall axis :: prevented.Near(axis) == Clamp(p.Near(axis), b.Near(axis), b.Far(axis) - inst.size.Len(axis))
    requires var cross := CrossAxis(placement);
             var kept := Clamp(prevented.Near(cross), FloorOf(reference.Near(cross)) - prevented.Len(cross),
                               FloorOf(reference.Far(cross)));
             var a := inst.arrow.value.size.Len(cross);
             r == ClientRect(prevented.MoveTo(cross, Clamp(kept, reference.Near(cross) + a - prevented.Len(cross),
                                                           reference.Far(cross) - a)))
    ensures Moved(inst, placement, p, reference, r)
  {
    assert prevented.Near(CrossAxis(placement)) == prevented.Near(CrossAxis(placement));
  }

  lemma KeptThenArrow(placement: Placement, p: Rect, reference: Rect, arrow: Size)
    requires p.Fresh() && reference.Fresh()
    requires var cross := CrossAxis(placement);
             && 0.0 <= p.Len(cross) && 0.0 <= reference.Len(cross)
             && 2.0 * arrow.Len(cross) <= p.Len(cross) + reference.Len(cross)
    ensures var cross := CrossAxis(placement);
            var kept := Clamp(p.Near(cross), FloorOf(reference.Near(cross)) - p.Len(cross),
                              FloorOf(reference.Far(cross)));
            ClientRect(ArrowRect(placement, ClientRect(KeepTogetherRect(placement, p, reference)), reference, arrow))
            == ClientRect(p.MoveTo(cross, Clamp(kept, reference.Near(cross) + arrow.Len(cross) - p.Len(cross),
                                                reference.Far(cross) - arrow.Len(cross))))
  {
    var cross := CrossAxis(placement);
    FloorIsMonotone(reference.Near(cross), reference.Far(cross));
    KeepTogetherClamps(placement, p, reference);
    ArrowIsNearest(placement, ClientRect(KeepTogetherRect(placement, p, reference)), reference, arrow);
  }

  lemma PreventedMove(inst: Instance, start: Rect, reference: Rect, axis: Axis)
    requires start.Fresh() && start.HasSize(inst.size) && Roomy(inst, reference)
    ensures Fits(inst.size, inst.overflowBounds, axis) && 0.0 <= reference.Len(axis)
    ensures 2.0 * inst.arrow.value.size.Len(axis) <= inst.size.Len(axis) + reference.Len(axis)
    ensures var b := inst.overflowBounds;
            var r := ClientRect(CheckSides(inst.priority, start, b, inst.escapeWithReference));
            && r.Fresh() && r.HasSize(inst.size)
            && r.Near(axis) == Clamp(start.Near(axis), b.Near(axis), b.Far(axis) - inst.size.Len(axis))
  {
    assert Fits(inst.size, inst.overflowBounds, axis);
    CheckSidesKeeps(inst.priority, start, inst.overflowBounds, false);
    PreventOverflowIsNearest(inst.priority, start, inst.overflowBounds, axis);
  }

  ghost predicate SettledRect(inst: Instance, placement: Placement, r: Rect, reference: Rect)
    requires inst.arrow.Some?
  {
    var cross := CrossAxis(placement);
    var a := inst.arrow.value.size.Len(cross);
    && r.HasSize(inst.size)
    && Inside(r, inst.overflowBounds, cross.Other())
    && Attached(r, reference, cross, a)
    && (Inside(r, inst.overflowBounds, cross)
        <==> ReachesInto(reference, inst.overflowBounds, cross, a, inst.size.Len(cross)))
  }

  lemma CoreRectSettles(inst: Instance, placement: Placement, p: Rect, reference: Rect)
    requires reference.Fresh() && p.HasSize(inst.size) && Roomy(inst, reference)
    ensures SettledRect(inst, placement, CoreRect(inst, placement, p, reference), reference)
  {
    CoreRectMoves(inst, placement, p, reference);
    MovesSettle(inst, placement, p, reference, CoreRect(inst, placement, p, reference));
  }

  lemma MovesSettle(inst: Instance, placement: Placement, p: Rect, reference: Rect, r: Rect)
    requires reference.Fresh() && Roomy(inst, reference) && Moved(inst, placement, p, reference, r)
    ensures SettledRect(inst, placement, r, reference)
  {
    var cross, b := CrossAxis(placement), inst.overflowBounds;
    assert Fits(inst.size, b, cross) && Fits(inst.size, b, cross.Other());
    FloorIsMonotone(reference.Near(cross), reference.Far(cross));
    ThreeMoves(p.Near(cross), inst.size.Len(cross), b.Near(cross), b.Far(cross),
               reference.Near(cross), reference.Far(cross),
               FloorOf(reference.Near(cross)), FloorOf(reference.Far(cross)), inst.arrow.value.size.Len(cross));
  }

  // ---------------------------------------------------------------- The default pipeline

  /** Some of shift and offset, the three modifiers, then `flip`, `hide` and disabled ones. */
  ghost predicate IsDefaultPipeline(modifiers: seq<Modifier>, pre: seq<Modifier>, core: seq<Modifier>,
                                    flip: Modifier, post: seq<Modifier>) {
    && modifiers == pre + core + [flip] + post
    && (forall m <- pre :: m.name == Shift || m.name == Offset)
    && IsCore(core)
    && flip.name == Flip
    && (forall m <- post :: m.name == Hide || (m.name == Inner && !m.enabled))
  }

  lemma FirstNamed(modifiers: seq<Modifier>, name: Name, i: nat)
    requires i < |modifiers| && modifiers[i].name == name
    requires forall j :: 0 <= j < i ==> modifiers[j].name != name
    ensures FindIndex(modifiers, name) == i
  {
  }

  lemma DefaultPipelineFacts(modifiers: seq<Modifier>, pre: seq<Modifier>, core: seq<Modifier>,
                             flip: Modifier, post: seq<Modifier>)
    requires IsDefaultPipeline(modifiers, pre, core, flip, post)
    ensures Before(modifiers, Flip) == pre + core
    ensures IsRequired(modifiers, Arrow, KeepTogether)
    ensures forall m <- pre + core :: m in modifiers
  {
    var n := |pre|;
    assert forall i :: 0 <= i < n ==> modifiers[i] == pre[i] && pre[i] in pre;
    assert modifiers[n] == core[0] && modifiers[n + 1] == core[1] && modifiers[n + 2] == core[2]
           && modifiers[n + 3] == flip;
    FirstNamed(modifiers, Arrow, n + 2);
    FirstNamed(modifiers, Flip, n + 3);
    assert modifiers[..n + 3] == pre + core;
    assert modifiers[n + 1] in modifiers;
  }

  /** A run of everything before `flip` settles the popper, from any position of the right size. */
  lemma BeforeFlipSettles(inst: Instance, pre: seq<Modifier>, core: seq<Modifier>, d: Data)
    requires IsCore(core) && IsRequired(inst.modifiers, Arrow, KeepTogether)
    requires forall m <- pre + core :: m in inst.modifiers
    requires d.popper.HasSize(inst.size) && Roomy(inst, ClientRect(d.reference))
    ensures Settled(inst, RunList(inst, pre + core, d))
    ensures RunList(inst, pre + core, d).reference.SameBox(d.reference)
  {
    RunAppend(inst, pre, core, d);
    assert forall m <- pre :: m in pre + core;
    RunListConserves(inst, pre, d);
    CoreSettles(inst, core, RunList(inst, pre, d));
  }

  lemma CoreSettles(inst: Instance, core: seq<Modifier>, d: Data)
    requires IsCore(core) && IsRequired(inst.modifiers, Arrow, KeepTogether)
    requires d.popper.HasSize(inst.size) && Roomy(inst, ClientRect(d.reference))
    ensures Settled(inst, RunList(inst, core, d))
    ensures RunList(inst, core, d).reference.SameBox(d.reference)
  {
    CoreRun(inst, core, d);
    CoreRectSettles(inst, d.placement, d.popper, ClientRect(d.reference));
    assert ClientRect(ClientRect(d.reference)) == ClientRect(d.reference);
  }

  lemma {:induction false} ReferenceStaysFresh(inst: Instance, modifiers: seq<Modifier>, d: Data)
    requires !HasFlip(modifiers) && d.reference.Fresh()
    ensures RunList(inst, modifiers, d).reference == d.reference
    decreases |modifiers|
  {
    if modifiers != [] {
      assert modifiers[0].name != Flip;
      assert ClientRect(d.reference) == d.reference;
      ReferenceStaysFresh(inst, modifiers[1..], RunOne(inst, modifiers[0], d));
    }
  }

  lemma RestartReference(inst: Instance, d: Data, placement: Placement)
    requires d.reference.Fresh()
    ensures Restart(inst, d, placement).reference == d.reference
  {
    BeforeHasNoFlip(inst.modifiers);
    ReferenceStaysFresh(inst, Before(inst.modifiers, Flip),
                        Placed(inst, d, placement));
  }

  /** Equal for every modifier and for the conflict test. */
  ghost predicate SamePosition(d: Data, e: Data) {
    d.popper == e.popper && d.reference == e.reference && d.placement == e.placement
  }

  lemma ArrowLeavesFresh(inst: Instance, m: Modifier, d: Data)
    requires m.enabled && m.name == Arrow
    ensures var r := RunOne(inst, m, d); Normalise(r) == r
  {
    assert ClientRect(ClientRect(d.popper)) == ClientRect(d.popper);
    assert ClientRect(ClientRect(d.reference)) == ClientRect(d.reference);
  }

  /** After the three modifiers every far edge is up to date, whether or not there is an arrow. */
  lemma CoreIsFresh(inst: Instance, pre: seq<Modifier>, core: seq<Modifier>, d: Data)
    requires IsCore(core)
    ensures var r := RunList(inst, pre + core, d); Normalise(r) == r
  {
    RunAppend(inst, pre, core, d);
    var d1 := RunList(inst, pre, d);
    RunThree(inst, core, d1);
    ArrowLeavesFresh(inst, core[2], RunOne(inst, core[1], RunOne(inst, core[0], d1)));
  }

  /** However often the loop of `flip` restarts, it ends with the data it began with or with those of one restart. */
  lemma {:induction false} FlipLoopEnds(inst: Instance, d: Data, order: seq<Placement>, i: nat,
                                        local: Placement, variation: Variation)
    returns (restarted: bool, last: Data, placement: Placement)
    requires d.reference.Fresh()
    ensures FlipLoop(inst, d, order, i, local, variation) == if restarted then Restart(inst, last, placement) else d
    ensures last.reference == d.reference
    decreases |order| - i
  {
    restarted, last, placement := false, d, d.placement;
    if i < |order| {
      if local != order[i] || |order| == i + 1 {
        restarted, last, placement := FlipLoopEnds(inst, d, order, i + 1, local, variation);
      } else {
        var base := d.placement.base;
        var conflict := Conflict(inst, d);
        var flipVariation := FlipsVariation(inst, base, variation, d.popper);
        var local' := if conflict then order[i + 1] else PlainAt(base);
        var variation' := if flipVariation then OppositeVariation(variation) else variation;
        if conflict || flipVariation {
          var d' := Restart(inst, d, local'.Append(variation'));
          RestartReference(inst, d, local'.Append(variation'));
          restarted, last, placement := FlipLoopEnds(inst, d', order, i + 1, local', variation');
          if !restarted {
            restarted, last, placement := true, d, local'.Append(variation');
          }
        } else {
          restarted, last, placement := FlipLoopEnds(inst, d, order, i + 1, local', variation');
        }
      }
    }
  }

  /** Modifiers after `flip` that only look at the position. */
  lemma {:induction false} PostKeepsPosition(inst: Instance, post: seq<Modifier>, d: Data)
    requires forall m <- post :: m.name == Hide || (m.name == Inner && !m.enabled)
    requires Normalise(d) == d
    ensures SamePosition(RunList(inst, post, d), d) && RunList(inst, post, d).arrow == d.arrow
    decreases |post|
  {
    if post != [] {
      assert post[0] in post;
      PostKeepsPosition(inst, post[1..], RunOne(inst, post[0], d));
    }
  }

  lemma RunThenPost(inst: Instance, pre: seq<Modifier>, core: seq<Modifier>, flip: Modifier, post: seq<Modifier>,
                    d: Data)
    requires IsDefaultPipeline(inst.modifiers, pre, core, flip, post) && flip.enabled
    ensures RunList(inst, inst.modifiers, d)
            == RunList(inst, post, FlipData(inst, Normalise(RunList(inst, pre + core, d))))
  {
    RunAppend(inst, pre + core + [flip], post, d);
    RunAppend(inst, pre + core, [flip], d);
    RunSingle(inst, flip, RunList(inst, pre + core, d));
  }

  /** The popper of `start` stands beside the reference, at the side of its placement. */
  ghost predicate StandsBeside(inst: Instance, start: Data, reference: Rect) {
    start.reference == reference
    && start.popper.SameBox(Beside(inst.size, reference, start.placement.base, start.popper))
  }

  /** `flip`, from data that are up to date: they stay, or are those of a pass from beside the reference. */
  lemma FlipEnds(inst: Instance, pre: seq<Modifier>, core: seq<Modifier>, flip: Modifier, d: Data)
    returns (restarted: bool, start: Data)
    requires IsCore(core) && Before(inst.modifiers, Flip) == pre + core && flip.name == Flip
    requires Normalise(d) == d
    ensures RunOne(inst, flip, d) == if restarted then RunList(inst, pre + core, start) else d
    ensures restarted ==> StandsBeside(inst, start, d.reference)
  {
    restarted, start := false, d;
    assert ClientRect(d.reference) == d.reference;
    if flip.enabled && !FlipIsSkipped(inst, d) {
      var last, placement;
      restarted, last, placement :=
        FlipLoopEnds(inst, d, FlipOrder(inst, d.placement.base), 0, PlainAt(d.placement.base), d.placement.variation);
      start := Placed(inst, last, placement);
    }
  }

  /**
   * The default pipeline ends where one pass of the modifiers before `flip` takes the popper: from
   * `start`, which is the original data or a popper beside the reference.
   */
  lemma DefaultPipelineEnds(inst: Instance, pre: seq<Modifier>, core: seq<Modifier>, flip: Modifier,
                            post: seq<Modifier>, d: Data) returns (start: Data)
    requires IsDefaultPipeline(inst.modifiers, pre, core, flip, post)
    ensures start == d || StandsBeside(inst, start, ClientRect(d.reference))
    ensures start.reference.SameBox(d.reference)
    ensures SamePosition(RunList(inst, inst.modifiers, d), RunList(inst, pre + core, start))
    ensures RunList(inst, inst.modifiers, d).arrow == RunList(inst, pre + core, start).arrow
  {
    DefaultPipelineFacts(inst.modifiers, pre, core, flip, post);
    var d1 := RunList(inst, pre + core, d);
    CoreIsFresh(inst, pre, core, d);
    FirstReference(inst, pre, core, d);
    var restarted;
    restarted, start := FlipEnds(inst, pre, core, flip, d1);
    if !restarted {
      start := d;
    }
    CoreIsFresh(inst, pre, core, start);
    RunAppend(inst, pre + core + [flip], post, d);
    RunAppend(inst, pre + core, [flip], d);
    RunSingle(inst, flip, d1);
    PostKeepsPosition(inst, post, RunOne(inst, flip, d1));
  }

  /** The first pass re-normalises the reference. */
  lemma FirstReference(inst: Instance, pre: seq<Modifier>, core: seq<Modifier>, d: Data)
    requires IsCore(core) && !HasFlip(pre + core)
    ensures RunList(inst, pre + core, d).reference == ClientRect(d.reference)
  {
    RunAppend(inst, pre, core, d);
    NoFlipInParts(pre, core);
    ReferenceBox(inst, pre, d);
    var d1 := RunList(inst, pre, d);
    RunThree(inst, core, d1);
    assert ClientRect(d1.reference) == ClientRect(d.reference);
    ClientRectTwice(d.reference);
  }

  lemma NoFlipInParts(a: seq<Modifier>, b: seq<Modifier>)
    requires !HasFlip(a + b)
    ensures !HasFlip(a) && !HasFlip(b)
  {
    assert forall i :: 0 <= i < |a| ==> (a + b)[i] == a[i];
    assert forall i :: 0 <= i < |b| ==> (a + b)[|a| + i] == b[i];
  }

  lemma {:induction false} ReferenceBox(inst: Instance, modifiers: seq<Modifier>, d: Data)
    requires !HasFlip(modifiers)
    ensures RunList(inst, modifiers, d).reference.SameBox(d.reference)
    decreases |modifiers|
  {
    if modifiers != [] {
      assert modifiers[0].name != Flip;
      NoFlipInParts([modifiers[0]], modifiers[1..]);
      assert [modifiers[0]] + modifiers[1..] == modifiers;
      ReferenceBox(inst, modifiers[1..], RunOne(inst, modifiers[0], d));
    }
  }

  /**
   * The default pipeline, from any position of the measured size and through every flip: at the
   * placement the run ends with, the popper is attached to its reference by an arrow length, wholly
   * inside the boundary on the main axis, and inside on the cross axis if and only if the reference
   * reaches far enough into the boundary.
   */
  lemma DefaultPipelineSettles(inst: Instance, pre: seq<Modifier>, core: seq<Modifier>, flip: Modifier,
                               post: seq<Modifier>, d: Data)
    requires IsDefaultPipeline(inst.modifiers, pre, core, flip, post)
    requires d.popper.HasSize(inst.size) && Roomy(inst, ClientRect(d.reference))
    ensures Settled(inst, RunList(inst, inst.modifiers, d))
    ensures RunList(inst, inst.modifiers, d).reference.SameBox(d.reference)
  {
    DefaultPipelineFacts(inst.modifiers, pre, core, flip, post);
    RunListConserves(inst, inst.modifiers, d);
    var start := DefaultPipelineEnds(inst, pre, core, flip, post, d);
    assert ClientRect(start.reference) == ClientRect(d.reference);
    BeforeFlipSettles(inst, pre, core, start);
  }

  // ---------------------------------------------------------------- The default pipeline, with room or without

  lemma CoreRectAttaches(inst: Instance, placement: Placement, p: Rect, reference: Rect)
    requires reference.Fresh() && p.HasSize(inst.size) && inst.arrow.Some?
    ensures var cross := CrossAxis(placement);
            var a := inst.arrow.value.size.Len(cross);
            Attached(CoreRect(inst, placement, p, reference), reference, cross, a)
            <==> 2.0 * a <= inst.size.Len(cross) + reference.Len(cross)
  {
    var cross, arrow := CrossAxis(placement), inst.arrow.value.size;
    var prevented := CheckSides(inst.priority, ClientRect(p), inst.overflowBounds, inst.escapeWithReference);
    CheckSidesKeeps(inst.priority, ClientRect(p), inst.overflowBounds, inst.escapeWithReference);
    var kept := ClientRect(KeepTogetherRect(placement, ClientRect(prevented), reference));
    assert kept.Len(cross) == inst.size.Len(cross);
    if 2.0 * arrow.Len(cross) <= kept.Len(cross) + reference.Len(cross) {
      ArrowIsNearest(placement, kept, reference, arrow);
    }
  }

  /** On the main axis only `preventOverflow` has moved the popper. */
  lemma CoreRectMain(inst: Instance, placement: Placement, p: Rect, reference: Rect)
    requires inst.arrow.Some?
    ensures var main, r := CrossAxis(placement).Other(), CoreRect(inst, placement, p, reference);
            && r.Fresh()
            && r.Near(main)
               == CheckSides(inst.priority, ClientRect(p), inst.overflowBounds, inst.escapeWithReference).Near(main)
  {
  }

  /** The up-to-date popper that `preventOverflow` finds in a pass from `start`. */
  function Arrival(inst: Instance, pre: seq<Modifier>, start: Data): Rect {
    ClientRect(RunList(inst, pre, start).popper)
  }

  lemma PassRuns(inst: Instance, pre: seq<Modifier>, core: seq<Modifier>, start: Data)
    requires IsCore(core) && IsRequired(inst.modifiers, Arrow, KeepTogether) && inst.arrow.Some?
    requires forall m <- pre + core :: m in inst.modifiers
    requires start.popper.HasSize(inst.size)
    ensures var r := RunList(inst, pre + core, start);
            && r.reference == ClientRect(start.reference)
            && r.popper == CoreRect(inst, r.placement, RunList(inst, pre, start).popper, ClientRect(start.reference))
            && RunList(inst, pre, start).popper.HasSize(inst.size)
  {
    RunAppend(inst, pre, core, start);
    assert forall m <- pre :: m in pre + core;
    RunListConserves(inst, pre, start);
    var arrived := RunList(inst, pre, start);
    CoreRun(inst, core, arrived);
    assert ClientRect(arrived.reference) == ClientRect(start.reference);
  }

  /**
   * The default pipeline with an arrow, whatever the boundary, the priorities and the fallback list:
   * at the placement the run ends with, the popper is attached to its reference by an arrow length
   * if and only if the arrow is short enough for that. On the main axis it stands where
   * `preventOverflow` puts a popper that starts from the original position or from beside the
   * reference and has gone through shift and offset.
   */
  lemma DefaultPipelineAttaches(inst: Instance, pre: seq<Modifier>, core: seq<Modifier>, flip: Modifier,
                                post: seq<Modifier>, d: Data) returns (start: Data)
    requires IsDefaultPipeline(inst.modifiers, pre, core, flip, post)
    requires d.popper.HasSize(inst.size) && inst.arrow.Some?
    ensures start == d || StandsBeside(inst, start, ClientRect(d.reference))
    ensures var r := RunList(inst, inst.modifiers, d);
            var cross := CrossAxis(r.placement);
            var a := inst.arrow.value.size.Len(cross);
            && (Attached(r.popper, ClientRect(d.reference), cross, a)
                <==> 2.0 * a <= inst.size.Len(cross) + d.reference.Len(cross))
            && r.popper.Fresh() && r.popper.HasSize(inst.size)
            && Arrival(inst, pre, start).HasSize(inst.size)
            && r.popper.Near(cross.Other())
               == CheckSides(inst.priority, Arrival(inst, pre, start), inst.overflowBounds,
                             inst.escapeWithReference).Near(cross.Other())
  {
    DefaultPipelineFacts(inst.modifiers, pre, core, flip, post);
    start := DefaultPipelineEnds(inst, pre, core, flip, post, d);
    assert ClientRect(start.reference) == ClientRect(d.reference);
    PassRuns(inst, pre, core, start);
    var r, p := RunList(inst, inst.modifiers, d), RunList(inst, pre, start).popper;
    CoreRectAttaches(inst, r.placement, p, ClientRect(d.reference));
    CoreRectMain(inst, r.placement, p, ClientRect(d.reference));
    RunListConserves(inst, inst.modifiers, d);
  }

  /**
   * So with the default priorities a popper that does not fit on the main axis ends flush with the
   * far edge of the boundary if its far edge overflowed when `preventOverflow` found it, and flush
   * with the near edge otherwise.
   */
  lemma DefaultPipelineOverfull(inst: Instance, pre: seq<Modifier>, core: seq<Modifier>, flip: Modifier,
                                post: seq<Modifier>, d: Data) returns (start: Data)
    requires IsDefaultPipeline(inst.modifiers, pre, core, flip, post)
    requires d.popper.HasSize(inst.size) && inst.arrow.Some?
    requires inst.priority == DEFAULT_PRIORITY && !inst.escapeWithReference
    requires var main := CrossAxis(RunList(inst, inst.modifiers, d).placement).Other();
             inst.overflowBounds.Far(main) - inst.overflowBounds.Near(main) < inst.size.Len(main)
    ensures start == d || StandsBeside(inst, start, ClientRect(d.reference))
    ensures var r, b := RunList(inst, inst.modifiers, d), inst.overflowBounds;
            var main := CrossAxis(r.placement).Other();
            if Arrival(inst, pre, start).Far(main) > b.Far(main) then r.popper.Far(main) == b.Far(main)
            else r.popper.Near(main) == b.Near(main)
  {
    start := DefaultPipelineAttaches(inst, pre, core, flip, post, d);
    var main := CrossAxis(RunList(inst, inst.modifiers, d).placement).Other();
    DefaultPriorityOverfull(Arrival(inst, pre, start), inst.overflowBounds, main);
    CheckSidesKeeps(inst.priority, Arrival(inst, pre, start), inst.overflowBounds, false);
  }

  // ---------------------------------------------------------------- hide finds its boundaries

  /** The constructor sorts the modifiers by `order`. */
  ghost predicate Sorted(modifiers: seq<Modifier>) {
    forall i, j :: 0 <= i <= j < |modifiers| ==> modifiers[i].order <= modifiers[j].order
  }

  ghost predicate Prevented(modifiers: seq<Modifier>, n: nat)
    requires n <= |modifiers|
  {
    exists i :: 0 <= i < n && modifiers[i].name == PreventOverflow && modifiers[i].enabled
  }

  /** Before the modifier at index `n`: no crash yet, and the boundaries are there if `preventOverflow` has run. */
  ghost predicate Ready(inst: Instance, d: Data, n: nat)
    requires n <= |inst.modifiers|
  {
    !d.crashed && (Prevented(inst.modifiers, n) ==> d.boundaries.Some?)
  }

  lemma HideFindsBoundaries(inst: Instance, d: Data, n: nat)
    requires Sorted(inst.modifiers) && n < |inst.modifiers| && inst.modifiers[n].name != Flip
    requires Ready(inst, d, n)
    ensures Ready(inst, RunOne(inst, inst.modifiers[n], d), n + 1)
    ensures d.boundaries.Some? ==> RunOne(inst, inst.modifiers[n], d).boundaries.Some?
  {
    var m := inst.modifiers[n];
    assert Prevented(inst.modifiers, n + 1) ==>
             Prevented(inst.modifiers, n) || (m.name == PreventOverflow && m.enabled);
    if m.name == Hide && m.enabled && IsRequired(inst.modifiers, Hide, PreventOverflow) {
      var h := FindIndex(inst.modifiers, Hide);
      var p :| p in inst.modifiers && p.name == PreventOverflow && p.enabled && p.order < inst.modifiers[h].order;
      var i :| 0 <= i < |inst.modifiers| && inst.modifiers[i] == p;
      assert h <= n;
      assert i < h;
      assert Prevented(inst.modifiers, n);
    }
  }

  lemma {:induction false} RunFromIsReady(inst: Instance, d: Data, n: nat, end: nat)
    requires Sorted(inst.modifiers) && n <= end <= |inst.modifiers| && Ready(inst, d, n)
    ensures Ready(inst, RunList(inst, inst.modifiers[n..end], d), end)
    ensures d.boundaries.Some? ==> RunList(inst, inst.modifiers[n..end], d).boundaries.Some?
    decreases if HasFlip(inst.modifiers[n..end]) then 1 else 0, end - n, 9
  {
    var list := inst.modifiers[n..end];
    if n < end {
      var m := list[0];
      assert list[1..] == inst.modifiers[n + 1..end];
      var d' := RunOne(inst, m, d);
      if m.name == Flip {
        assert Prevented(inst.modifiers, n + 1) ==> Prevented(inst.modifiers, n);
        if m.enabled {
          FlipIsReady(inst, Normalise(d));
        }
      } else {
        HideFindsBoundaries(inst, d, n);
      }
      assert HasFlip(list[1..]) ==> HasFlip(list);
      RunFromIsReady(inst, d', n + 1, end);
    }
  }

  lemma FlipIsReady(inst: Instance, d: Data)
    requires Sorted(inst.modifiers) && !d.crashed
    ensures var r := FlipData(inst, d); !r.crashed && (d.boundaries.Some? ==> r.boundaries.Some?)
    decreases 1, 0, 7
  {
    if !FlipIsSkipped(inst, d) {
      FlipLoopIsReady(inst, d, FlipOrder(inst, d.placement.base), 0, PlainAt(d.placement.base), d.placement.variation);
    }
  }

  lemma {:induction false} FlipLoopIsReady(inst: Instance, d: Data, order: seq<Placement>, i: nat,
                                           local: Placement, variation: Variation)
    requires Sorted(inst.modifiers) && !d.crashed
    ensures var r := FlipLoop(inst, d, order, i, local, variation);
            !r.crashed && (d.boundaries.Some? ==> r.boundaries.Some?)
    decreases 1, 0, 6, |order| - i
  {
    if i < |order| {
      if local != order[i] || |order| == i + 1 {
        FlipLoopIsReady(inst, d, order, i + 1, local, variation);
      } else {
        var base := d.placement.base;
        var conflict := Conflict(inst, d);
        var flipVariation := FlipsVariation(inst, base, variation, d.popper);
        var local' := if conflict then order[i + 1] else PlainAt(base);
        var variation' := if flipVariation then OppositeVariation(variation) else variation;
        if conflict || flipVariation {
          var start := Placed(inst, d, local'.Append(variation'));
          BeforeHasNoFlip(inst.modifiers);
          var end := |Before(inst.modifiers, Flip)|;
          assert Before(inst.modifiers, Flip) == inst.modifiers[0..end];
          RunFromIsReady(inst, start, 0, end);
          FlipLoopIsReady(inst, Restart(inst, d, local'.Append(variation')), order, i + 1, local', variation');
        } else {
          FlipLoopIsReady(inst, d, order, i + 1, local', variation');
        }
      }
    }
  }

  /** In a sorted pipeline `hide` never runs before the `preventOverflow` it relies on, not even when flipping. */
  lemma NeverCrashes(inst: Instance, d: Data)
    requires Sorted(inst.modifiers) && !d.crashed
    ensures !RunList(inst, inst.modifiers, d).crashed
  {
    assert inst.modifiers[0..|inst.modifiers|] == inst.modifiers;
    RunFromIsReady(inst, d, 0, |inst.modifiers|);
  }
}
