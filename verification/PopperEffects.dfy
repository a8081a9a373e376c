/** What single modifiers and the tests of `flip` come to, in coordinates. */
module PopperEffects {
  import opened Geometry
  import opened OffsetParser
  import OffsetText
  import OffsetTheorems
  import opened Optional
  import opened PopperPipeline
  import opened PopperSpec
  import opened PopperTheorems

  // ---------------------------------------------------------------- offset

  /** A number slides the popper along the reference and leaves its distance alone. */
  lemma NumberSlides(inst: Instance, d: Data, pixels: real)
    requires inst.offset == OffsetOption.Amount(pixels)
    ensures Plainly(inst, Offset, d) ==
              match d.placement.base
              case Top => d.(popper := d.popper.(left := d.popper.left + pixels))
              case Bottom => d.(popper := d.popper.(left := d.popper.left + pixels))
              case Left => d.(popper := d.popper.(top := d.popper.top + pixels))
              case Right => d.(popper := d.popper.(top := d.popper.top + pixels))
  {
  }

  /**
   * A pair of expressions slides it by the first and moves it away from the reference by the second;
   * percentages are of popper and reference on the axis of the move.
   */
  lemma PairMoves(inst: Instance, d: Data, xs: seq<OffsetTheorems.Term>, between: OffsetText.Between,
                  ys: seq<OffsetTheorems.Term>, tail: string)
    requires xs != [] && OffsetTheorems.ValidTerms(xs) && ys != [] && OffsetTheorems.ValidTerms(ys)
    requires OffsetText.ValidBetween(between) && Blank(tail) && (between.Space? ==> ys[0].unary.None?)
    requires inst.offset == Expression(OffsetTheorems.PrintPair(xs, between, ys, tail))
    ensures var heights := Measures(d.popper.height, d.reference.height, inst.view.height, inst.view.width);
            var widths := Measures(d.popper.width, d.reference.width, inst.view.height, inst.view.width);
            var r := Plainly(inst, Offset, d).popper;
            match d.placement.base
            case Top => r.left == d.popper.left + OffsetTheorems.AxisValue(xs, widths)
                        && r.top == d.popper.top - OffsetTheorems.AxisValue(ys, heights)
            case Bottom => r.left == d.popper.left + OffsetTheorems.AxisValue(xs, widths)
                           && r.top == d.popper.top + OffsetTheorems.AxisValue(ys, heights)
            case Left => r.top == d.popper.top + OffsetTheorems.AxisValue(xs, heights)
                         && r.left == d.popper.left - OffsetTheorems.AxisValue(ys, widths)
            case Right => r.top == d.popper.top + OffsetTheorems.AxisValue(xs, heights)
                          && r.left == d.popper.left + OffsetTheorems.AxisValue(ys, widths)
  {
    OffsetTheorems.PairOfOffsets(xs, between, ys, tail, d.popper, d.reference, inst.view, d.placement.base);
  }

  // ---------------------------------------------------------------- Requirements

  /** Some enabled modifier of one name stands in order before the first of the other name. */
  ghost predicate StandsBefore(modifiers: seq<Modifier>, requested: Name, requesting: Name) {
    exists i, j ::
      && 0 <= i < |modifiers| && modifiers[i].name == requesting
      && (forall k :: 0 <= k < i ==> modifiers[k].name != requesting)
      && 0 <= j < |modifiers| && modifiers[j].name == requested && modifiers[j].enabled
      && modifiers[j].order < modifiers[i].order
  }

  lemma RequiredIff(modifiers: seq<Modifier>, requesting: Name, requested: Name)
    ensures IsRequired(modifiers, requesting, requested) <==> StandsBefore(modifiers, requested, requesting)
  {
    var i := FindIndex(modifiers, requesting);
    if IsRequired(modifiers, requesting, requested) {
      var m :| m in modifiers && m.name == requested && m.enabled && m.order < modifiers[i].order;
      var j :| 0 <= j < |modifiers| && modifiers[j] == m;
    }
    if StandsBefore(modifiers, requested, requesting) {
      var i', j :| 0 <= i' < |modifiers| && modifiers[i'].name == requesting
                   && (forall k :: 0 <= k < i' ==> modifiers[k].name != requesting)
                   && 0 <= j < |modifiers| && modifiers[j].name == requested && modifiers[j].enabled
                   && modifiers[j].order < modifiers[i'].order;
      assert i == i';
      assert modifiers[j] in modifiers;
    }
  }

  /** Without what they require, or without an arrow element, `arrow` and `hide` change nothing. */
  lemma RequirementsMatter(inst: Instance, d: Data)
    ensures !StandsBefore(inst.modifiers, KeepTogether, Arrow) || inst.arrow.None? ==> Plainly(inst, Arrow, d) == d
    ensures !StandsBefore(inst.modifiers, PreventOverflow, Hide) ==> Plainly(inst, Hide, d) == d
  {
    RequiredIff(inst.modifiers, Arrow, KeepTogether);
    RequiredIff(inst.modifiers, Hide, PreventOverflow);
  }

  // ---------------------------------------------------------------- arrow

  /**
   * The arrow stored in `d`, for any margin and border: rounded to the nearest pixel, halves upward,
   * it stands under the centre of the reference, or as far as the popper reaches.
   */
  ghost predicate StoresArrow(d: Data, e: ArrowElement) {
    var cross := CrossAxis(d.placement);
    var a := e.size.Len(cross);
    var inset := if cross == X then e.marginLeft + e.borderLeft else e.marginTop + e.borderTop;
    var centred := d.reference.Near(cross) + d.reference.Len(cross) / 2.0 - a / 2.0 - d.popper.Near(cross) - inset;
    var most := d.popper.Len(cross) - a;
    && d.arrow.Some?
    && (if most < 0.0 || centred < 0.0 then d.arrow.value == 0
        else if centred <= most then RoundsTo(centred, d.arrow.value)
        else RoundsTo(most, d.arrow.value))
  }

  ghost predicate RoundsTo(x: real, k: int) {
    k as real - 0.5 <= x < k as real + 0.5
  }

  lemma ArrowIsStored(inst: Instance, d: Data)
    requires IsRequired(inst.modifiers, Arrow, KeepTogether) && inst.arrow.Some?
    ensures StoresArrow(Plainly(inst, Arrow, d), inst.arrow.value)
  {
    var r := Plainly(inst, Arrow, d);
    RoundIsNear(ArrowOffset(r.placement, r.popper, r.reference, inst.arrow.value));
  }

  /** A run of the modifiers before `flip` ends with `arrow`, and stores the arrow for where it leaves the popper. */
  lemma PassStoresArrow(inst: Instance, pre: seq<Modifier>, core: seq<Modifier>, start: Data)
    requires IsCore(core) && IsRequired(inst.modifiers, Arrow, KeepTogether) && inst.arrow.Some?
    ensures StoresArrow(RunList(inst, pre + core, start), inst.arrow.value)
  {
    RunAppend(inst, pre, core, start);
    var d1 := RunList(inst, pre, start);
    RunThree(inst, core, d1);
    ArrowIsStored(inst, Normalise(RunOne(inst, core[1], RunOne(inst, core[0], d1))));
  }

  /** So the arrow that the default pipeline stores is the one for the position it ends with, after all flips. */
  lemma DefaultPipelineStoresArrow(inst: Instance, pre: seq<Modifier>, core: seq<Modifier>, flip: Modifier,
                                   post: seq<Modifier>, d: Data)
    requires IsDefaultPipeline(inst.modifiers, pre, core, flip, post) && inst.arrow.Some?
    ensures StoresArrow(RunList(inst, inst.modifiers, d), inst.arrow.value)
  {
    DefaultPipelineFacts(inst.modifiers, pre, core, flip, post);
    var start := DefaultPipelineEnds(inst, pre, core, flip, post, d);
    PassStoresArrow(inst, pre, core, start);
  }

  /** For zero margin and border it is at most half a pixel from the place of `ArrowPointsAtReference`. */
  lemma StoredArrowPoints(d: Data, e: ArrowElement) returns (start: real)
    requires StoresArrow(d, e) && d.popper.Fresh()
    requires e.marginLeft == 0.0 && e.marginTop == 0.0 && e.borderLeft == 0.0 && e.borderTop == 0.0
    requires e.size.Len(CrossAxis(d.placement)) <= d.popper.Len(CrossAxis(d.placement))
    ensures var cross := CrossAxis(d.placement);
            var a := e.size.Len(cross);
            && IsNearest(start, d.reference.Near(cross) + (d.reference.Len(cross) - a) / 2.0,
                         d.popper.Near(cross), d.popper.Far(cross) - a)
            && Distance(d.arrow.value as real, start - d.popper.Near(cross)) <= 0.5
  {
    var cross := CrossAxis(d.placement);
    var a := e.size.Len(cross);
    var centre := d.reference.Near(cross) + (d.reference.Len(cross) - a) / 2.0;
    start := Clamp(centre, d.popper.Near(cross), d.popper.Far(cross) - a);
    ClampIsNearest(centre, d.popper.Near(cross), d.popper.Far(cross) - a);
  }

  // ---------------------------------------------------------------- hide

  /** `hidden` says whether the reference lies wholly outside the boundary, on whichever side. */
  ghost predicate ReportsHidden(d: Data, reference: Rect, bounds: Bounds) {
    d.hidden == Some(reference.bottom < bounds.top || reference.left > bounds.right
                     || reference.top > bounds.bottom || reference.right < bounds.left)
  }

  lemma HideReports(inst: Instance, d: Data, bounds: Bounds)
    requires IsRequired(inst.modifiers, Hide, PreventOverflow) && d.boundaries == Some(bounds)
    ensures ReportsHidden(Plainly(inst, Hide, d), d.reference, bounds)
    ensures Plainly(inst, Hide, d).boundaries == d.boundaries && Plainly(inst, Hide, d).reference == d.reference
  {
  }

  lemma {:induction false} PostReports(inst: Instance, post: seq<Modifier>, d: Data)
    requires forall m <- post :: m.name == Hide || (m.name == Inner && !m.enabled)
    requires IsRequired(inst.modifiers, Hide, PreventOverflow) && d.boundaries == Some(inst.overflowBounds)
    requires d.reference.Fresh()
    ensures (exists m <- post :: m.enabled) || ReportsHidden(d, d.reference, inst.overflowBounds) ==>
              ReportsHidden(RunList(inst, post, d), d.reference, inst.overflowBounds)
    decreases |post|
  {
    if post != [] {
      var m := post[0];
      assert m in post;
      assert ClientRect(d.reference) == d.reference;
      if m.enabled {
        HideReports(inst, Normalise(d), inst.overflowBounds);
      }
      PostReports(inst, post[1..], RunOne(inst, m, d));
    }
  }

  lemma {:induction false} BoundariesStay(inst: Instance, modifiers: seq<Modifier>, d: Data)
    requires !HasFlip(modifiers) && d.boundaries == Some(inst.overflowBounds)
    ensures RunList(inst, modifiers, d).boundaries == Some(inst.overflowBounds)
    decreases |modifiers|
  {
    if modifiers != [] {
      assert modifiers[0].name != Flip;
      NoFlipInParts([modifiers[0]], modifiers[1..]);
      assert [modifiers[0]] + modifiers[1..] == modifiers;
      BoundariesStay(inst, modifiers[1..], RunOne(inst, modifiers[0], d));
    }
  }

  /** A pass through `preventOverflow` leaves its boundary for `hide`. */
  lemma PassLeavesBoundary(inst: Instance, pre: seq<Modifier>, core: seq<Modifier>, start: Data)
    requires IsCore(core)
    ensures RunList(inst, pre + core, start).boundaries == Some(inst.overflowBounds)
  {
    RunAppend(inst, pre, core, start);
    var d1 := RunOne(inst, core[0], RunList(inst, pre, start));
    RunThree(inst, core, RunList(inst, pre, start));
    assert d1.boundaries == Some(inst.overflowBounds);
  }

  /** With `hide` on, the default pipeline reports whether the reference lies outside the boundary. */
  lemma DefaultPipelineReports(inst: Instance, pre: seq<Modifier>, core: seq<Modifier>, flip: Modifier,
                               post: seq<Modifier>, d: Data)
    requires IsDefaultPipeline(inst.modifiers, pre, core, flip, post)
    requires StandsBefore(inst.modifiers, PreventOverflow, Hide) && exists m <- post :: m.enabled
    ensures ReportsHidden(RunList(inst, inst.modifiers, d), ClientRect(d.reference), inst.overflowBounds)
  {
    DefaultPipelineFacts(inst.modifiers, pre, core, flip, post);
    RequiredIff(inst.modifiers, Hide, PreventOverflow);
    var d1 := RunList(inst, pre + core, d);
    CoreIsFresh(inst, pre, core, d);
    FirstReference(inst, pre, core, d);
    var restarted, start := FlipEnds(inst, pre, core, flip, d1);
    var d2 := RunOne(inst, flip, d1);
    PassLeavesBoundary(inst, pre, core, d);
    PassLeavesBoundary(inst, pre, core, start);
    FirstReference(inst, pre, core, start);
    assert ClientRect(ClientRect(d.reference)) == ClientRect(d.reference);
    PostReports(inst, post, d2);
    RunAppend(inst, pre + core + [flip], post, d);
    RunAppend(inst, pre + core, [flip], d);
    RunSingle(inst, flip, d1);
  }

  // ---------------------------------------------------------------- The tests of flip

  /** `flip` leaves everything alone with `inner` on, and when flipping has led back to the original placement. */
  lemma FlipIsSkippedIff(inst: Instance, d: Data)
    ensures FlipIsSkipped(inst, d) <==>
              || (exists i :: 0 <= i < |inst.modifiers|
                                && inst.modifiers[i] == Modifier(Inner, inst.modifiers[i].order, true))
              || (d.flipped && d.placement == d.originalPlacement)
    ensures FlipIsSkipped(inst, d) ==> FlipData(inst, d) == d
  {
    if IsEnabled(inst.modifiers, Inner) {
      var m :| m in inst.modifiers && m.name == Inner && m.enabled;
      var i :| 0 <= i < |inst.modifiers| && inst.modifiers[i] == m;
    }
  }

  function Floored(r: Rect): Rect {
    Rect(FloorOf(r.left), FloorOf(r.top), r.width, r.height, FloorOf(r.right), FloorOf(r.bottom))
  }

  function FlooredBounds(b: Bounds): Bounds {
    Bounds(FloorOf(b.left), FloorOf(b.top), FloorOf(b.right), FloorOf(b.bottom))
  }

  /** The conflict test looks at whole pixels: rounding every edge down changes nothing. */
  lemma ConflictInWholePixels(inst: Instance, d: Data)
    ensures Conflict(inst, d) <==>
              Conflict(inst.(flipBounds := FlooredBounds(inst.flipBounds)),
                       d.(popper := Floored(d.popper), reference := Floored(d.reference)))
  {
    assert forall x: real :: FloorOf(FloorOf(x)) == FloorOf(x);
  }

  /** The variation changes, with `flipVariations` on, if the popper leaves the boundary on its aligned side. */
  lemma VariationChangesIff(inst: Instance, base: Side, variation: Variation, p: Rect)
    ensures FlipsVariation(inst, base, variation, p) <==>
              && inst.flipVariations
              && if base == Top || base == Bottom then
                   || (variation == Start && p.left.Floor < inst.flipBounds.left.Floor)
                   || (variation == End && p.right.Floor > inst.flipBounds.right.Floor)
                 else
                   || (variation == Start && p.top.Floor < inst.flipBounds.top.Floor)
                   || (variation == End && p.bottom.Floor > inst.flipBounds.bottom.Floor)
  {
  }

  /** How a changed variation and a placement with a variation are written. */
  lemma VariationsAreWritten(side: Side, v: Variation, w: Variation)
    ensures OppositeVariation(Start) == End && OppositeVariation(End) == Start
    ensures PlainAt(side).Append(v) == Placement(side, v)
    ensures v != Plain && w != Plain ==> Placement(side, v).Append(w) == Placement(side, v, [w])
    ensures Placement(side, v).Append(Plain) == Placement(side, v)
  {
  }

  // ---------------------------------------------------------------- inner, hide and restarts

  /** `inner` turns the placement to the opposite side and keeps its variation. */
  lemma InnerTurnsPlacement(inst: Instance, d: Data)
    ensures var r := Plainly(inst, Inner, d);
            r.placement.variation == d.placement.variation && r == d.(popper := r.popper, placement := r.placement)
    ensures Plainly(inst, Inner, d).placement.base ==
              match d.placement.base
              case Top => Bottom
              case Bottom => Top
              case Left => Right
              case Right => Left
  {
  }

  /** `hide` fails exactly if its requirement stands in the list but no boundary has been left for it. */
  lemma HideCrashesIff(inst: Instance, d: Data)
    ensures Plainly(inst, Hide, d).crashed
            <==> d.crashed || (StandsBefore(inst.modifiers, PreventOverflow, Hide) && d.boundaries.None?)
  {
    RequiredIff(inst.modifiers, Hide, PreventOverflow);
  }

  /** A restart marks the data as flipped, at the placement it tries; what was asked for is remembered. */
  lemma RestartMarks(inst: Instance, d: Data, placement: Placement)
    requires !IsEnabled(inst.modifiers, Inner)
    ensures var r := Restart(inst, d, placement);
            r.flipped && r.placement == placement && r.originalPlacement == d.originalPlacement
  {
    BeforeFlipKeepsPlacement(inst);
    PlacementIsKept(inst, Before(inst.modifiers, Flip), Placed(inst, d, placement));
  }
}
