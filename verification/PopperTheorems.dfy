/** What single modifiers achieve, and what the first three of them achieve together. */
module PopperTheorems {
  import opened Geometry
  import opened PopperSpec
  import opened Optional

  function NearSide(axis: Axis): Side {
    if axis == X then Left else Top
  }

  function FarSide(axis: Axis): Side {
    if axis == X then Right else Bottom
  }

  ghost predicate Inside(popper: Rect, bounds: Bounds, axis: Axis) {
    bounds.Near(axis) <= popper.Near(axis) && popper.Near(axis) + popper.Len(axis) <= bounds.Far(axis)
  }

  ghost predicate Fits(size: Size, bounds: Bounds, axis: Axis) {
    0.0 <= size.Len(axis) <= bounds.Far(axis) - bounds.Near(axis)
  }

  // ---------------------------------------------------------------- Placing the popper

  /** The popper stands against the side of the placement, centred on the reference. */
  lemma BesideTouchesAndCentres(size: Size, reference: Rect, base: Side, previous: Rect)
    requires reference.Fresh()
    ensures var popper := ClientRect(Beside(size, reference, base, previous));
            && popper.HasSize(size)
            && popper.Edge(Opposite(base)) == reference.Edge(base)
            && popper.Near(AxisOf(base).Other()) + popper.Far(AxisOf(base).Other())
               == reference.Near(AxisOf(base).Other()) + reference.Far(AxisOf(base).Other())
  {
    assert AxisOf(Opposite(base)) == AxisOf(base);
  }

  /** `start` aligns the near edges and `end` the far edges; the main axis is left alone. */
  lemma ShiftAligns(placement: Placement, popper: Rect, reference: Rect)
    requires popper.Fresh() && reference.Fresh() && placement.variation != Plain
    ensures var cross := CrossAxis(placement);
            var r := ClientRect(ShiftRect(placement, popper, reference));
            && (placement.variation == Start ==> r.Near(cross) == reference.Near(cross))
            && (placement.variation == End ==> r.Far(cross) == reference.Far(cross))
            && r.Near(cross.Other()) == popper.Near(cross.Other())
  {
  }

  /** The distance from the side `base` of the reference to the popper. */
  function Gap(base: Side, popper: Rect, reference: Rect): real {
    if IsNear(base) then reference.Edge(base) - popper.Edge(Opposite(base))
    else popper.Edge(Opposite(base)) - reference.Edge(base)
  }

  /** The second offset widens the gap to the reference and the first slides along it, on every side. */
  lemma OffsetWidensGap(base: Side, popper: Rect, reference: Rect, along: real, away: real)
    requires popper.Fresh()
    ensures var r := ClientRect(OffsetRect(base, popper, along, away));
            && Gap(base, r, reference) == Gap(base, popper, reference) + away
            && r.Near(AxisOf(base).Other()) == popper.Near(AxisOf(base).Other()) + along
            && r.width == popper.width && r.height == popper.height
  {
  }

  /** `inner` makes the popper flush with the inside of the placement's side, on the main axis only. */
  lemma InnerIsFlush(base: Side, popper: Rect, reference: Rect)
    ensures var r := InnerRect(base, popper, reference);
            && r.Fresh() && r.Edge(base) == reference.Edge(base)
            && r.Near(AxisOf(base).Other()) == popper.Near(AxisOf(base).Other())
            && r.width == popper.width && r.height == popper.height
  {
  }

  // ---------------------------------------------------------------- preventOverflow

  /** The loop moves the popper but leaves sizes and far edges as they were on entry. */
  lemma {:induction false} CheckSidesKeeps(priority: seq<Side>, p: Rect, bounds: Bounds, escape: bool)
    ensures var r := CheckSides(priority, p, bounds, escape);
            r.width == p.width && r.height == p.height && r.right == p.right && r.bottom == p.bottom
    ensures escape ==> CheckSides(priority, p, bounds, escape) == p
  {
    if priority != [] {
      CheckSidesKeeps(priority[..|priority| - 1], p, bounds, escape);
    }
  }

  lemma LastNamed(priority: seq<Side>, side: Side)
    requires priority != []
    ensures side in priority <==> side in priority[..|priority| - 1] || side == priority[|priority| - 1]
  {
    assert priority == priority[..|priority| - 1] + [priority[|priority| - 1]];
  }

  lemma {:induction false} CheckSidesFitting(priority: seq<Side>, p: Rect, bounds: Bounds, axis: Axis)
    requires p.Fresh() && bounds.Near(axis) <= bounds.Far(axis) - p.Len(axis)
    ensures var lo, hi := bounds.Near(axis), bounds.Far(axis) - p.Len(axis);
            CheckSides(priority, p, bounds, false).Near(axis) ==
              if p.Near(axis) < lo then (if NearSide(axis) in priority then lo else p.Near(axis))
              else if p.Near(axis) > hi then (if FarSide(axis) in priority then hi else p.Near(axis))
              else p.Near(axis)
  {
    if priority != [] {
      var n := |priority| - 1;
      CheckSidesFitting(priority[..n], p, bounds, axis);
      CheckSidesKeeps(priority[..n], p, bounds, false);
      LastNamed(priority, NearSide(axis));
      LastNamed(priority, FarSide(axis));
    }
  }

  /**
   * When the popper fits, every priority list naming both sides of an axis, in any order and with
   * repeats, gives the position inside the boundary nearest to the original one.
   */
  lemma PreventOverflowIsNearest(priority: seq<Side>, p: Rect, bounds: Bounds, axis: Axis)
    requires p.Fresh() && bounds.Near(axis) <= bounds.Far(axis) - p.Len(axis)
    requires NearSide(axis) in priority && FarSide(axis) in priority
    ensures IsNearest(CheckSides(priority, p, bounds, false).Near(axis), p.Near(axis),
                      bounds.Near(axis), bounds.Far(axis) - p.Len(axis))
    ensures CheckSides(priority, p, bounds, false).Near(axis)
         == Clamp(p.Near(axis), bounds.Near(axis), bounds.Far(axis) - p.Len(axis))
  {
    CheckSidesFitting(priority, p, bounds, axis);
    ClampIsNearest(p.Near(axis), bounds.Near(axis), bounds.Far(axis) - p.Len(axis));
  }

  /** There is no other such position, so all these lists agree. */
  lemma PreventOverflowIsUnique(priority: seq<Side>, p: Rect, bounds: Bounds, axis: Axis, q: real)
    requires p.Fresh() && bounds.Near(axis) <= bounds.Far(axis) - p.Len(axis)
    requires NearSide(axis) in priority && FarSide(axis) in priority
    requires IsNearest(q, p.Near(axis), bounds.Near(axis), bounds.Far(axis) - p.Len(axis))
    ensures CheckSides(priority, p, bounds, false).Near(axis) == q
  {
    PreventOverflowIsNearest(priority, p, bounds, axis);
    NearestIsUnique(CheckSides(priority, p, bounds, false).Near(axis), q,
                    p.Near(axis), bounds.Near(axis), bounds.Far(axis) - p.Len(axis));
  }

  /** After re-normalising, a second pass with any list changes nothing. */
  lemma PreventOverflowIsIdempotent(priority: seq<Side>, again: seq<Side>, p: Rect, bounds: Bounds)
    requires p.Fresh() && p.width <= bounds.right - bounds.left && p.height <= bounds.bottom - bounds.top
    requires forall side :: side in priority
    ensures var r := ClientRect(CheckSides(priority, p, bounds, false)); CheckSides(again, r, bounds, false) == r
  {
    var r := ClientRect(CheckSides(priority, p, bounds, false));
    CheckSidesKeeps(priority, p, bounds, false);
    CheckSidesKeeps(again, r, bounds, false);
    PreventOverflowIsNearest(priority, p, bounds, X);
    PreventOverflowIsNearest(priority, p, bounds, Y);
    CheckSidesFitting(again, r, bounds, X);
    CheckSidesFitting(again, r, bounds, Y);
  }

  /** The last side of the axis that the list names. */
  function LastOn(priority: seq<Side>, axis: Axis): Option<Side> {
    if priority == [] then None
    else if AxisOf(priority[|priority| - 1]) == axis then Some(priority[|priority| - 1])
    else LastOn(priority[..|priority| - 1], axis)
  }

  lemma {:induction false} CheckSidesOverfull(priority: seq<Side>, p: Rect, bounds: Bounds, axis: Axis)
    requires p.Fresh() && bounds.Far(axis) - p.Len(axis) < bounds.Near(axis)
    ensures var lo, hi := bounds.Near(axis), bounds.Far(axis) - p.Len(axis);
            var near, far := NearSide(axis) in priority, FarSide(axis) in priority;
            CheckSides(priority, p, bounds, false).Near(axis) ==
              if p.Near(axis) <= hi then (if near then lo else p.Near(axis))
              else if !near && !far then p.Near(axis)
              else if !far then Max(p.Near(axis), lo)
              else if LastOn(priority, axis) == Some(FarSide(axis)) then hi
              else lo
  {
    if priority != [] {
      var n := |priority| - 1;
      CheckSidesOverfull(priority[..n], p, bounds, axis);
      CheckSidesKeeps(priority[..n], p, bounds, false);
      LastNamed(priority, NearSide(axis));
      LastNamed(priority, FarSide(axis));
      assert AxisOf(priority[n]) == axis ==> priority[n] == NearSide(axis) || priority[n] == FarSide(axis);
    }
  }

  /**
   * When the loop leaves the position on an axis alone, for any list: no test fires, or the popper
   * does not fit, stood at the near edge and is put back there by the side named last.
   */
  ghost predicate StaysOnAxis(priority: seq<Side>, p: Rect, bounds: Bounds, axis: Axis) {
    && (NearSide(axis) in priority ==> bounds.Near(axis) <= p.Near(axis))
    && (FarSide(axis) in priority ==>
          p.Far(axis) <= bounds.Far(axis)
          || (p.Near(axis) == bounds.Near(axis) && LastOn(priority, axis) == Some(NearSide(axis))))
  }

  lemma CheckSidesStay(priority: seq<Side>, p: Rect, bounds: Bounds, axis: Axis)
    requires p.Fresh()
    ensures CheckSides(priority, p, bounds, false).Near(axis) == p.Near(axis)
            <==> StaysOnAxis(priority, p, bounds, axis)
  {
    LastOnIsNamed(priority, axis);
    if bounds.Near(axis) <= bounds.Far(axis) - p.Len(axis) {
      CheckSidesFitting(priority, p, bounds, axis);
    } else {
      CheckSidesOverfull(priority, p, bounds, axis);
    }
  }

  lemma {:induction false} LastOnIsNamed(priority: seq<Side>, axis: Axis)
    ensures var last := LastOn(priority, axis);
            && (last.Some? ==> last.value in priority && (last.value == NearSide(axis) || last.value == FarSide(axis)))
            && (last.None? ==> NearSide(axis) !in priority && FarSide(axis) !in priority)
  {
    if priority != [] {
      LastOnIsNamed(priority[..|priority| - 1], axis);
      LastNamed(priority, NearSide(axis));
      LastNamed(priority, FarSide(axis));
    }
  }

  /**
   * When the popper does not fit and the list names both sides: it ends flush with the far edge of
   * the boundary exactly if its far edge overflowed on arrival and the far side is named last, and
   * flush with the near edge otherwise.
   */
  lemma PreventOverflowOverfull(priority: seq<Side>, p: Rect, bounds: Bounds, axis: Axis)
    requires p.Fresh() && bounds.Far(axis) - bounds.Near(axis) < p.Len(axis)
    requires NearSide(axis) in priority && FarSide(axis) in priority
    ensures var r := ClientRect(CheckSides(priority, p, bounds, false));
            if p.Far(axis) > bounds.Far(axis) && LastOn(priority, axis) == Some(FarSide(axis))
            then r.Far(axis) == bounds.Far(axis)
            else r.Near(axis) == bounds.Near(axis)
  {
    CheckSidesOverfull(priority, p, bounds, axis);
    CheckSidesKeeps(priority, p, bounds, false);
  }

  const DEFAULT_PRIORITY: seq<Side> := [Left, Right, Top, Bottom]

  /** The default list: far edge if that edge overflowed on arrival, near edge otherwise. */
  lemma DefaultPriorityOverfull(p: Rect, bounds: Bounds, axis: Axis)
    requires p.Fresh() && bounds.Far(axis) - bounds.Near(axis) < p.Len(axis)
    ensures var r := ClientRect(CheckSides(DEFAULT_PRIORITY, p, bounds, false));
            if p.Far(axis) > bounds.Far(axis) then r.Far(axis) == bounds.Far(axis)
            else r.Near(axis) == bounds.Near(axis)
  {
    assert DEFAULT_PRIORITY[..3] == [Left, Right, Top];
    assert [Left, Right, Top][..2] == [Left, Right];
    assert LastOn([Left, Right], X) == Some(Right);
    assert LastOn([Left, Right, Top], X) == Some(Right);
    assert LastOn(DEFAULT_PRIORITY, axis) == Some(FarSide(axis));
    assert DEFAULT_PRIORITY[0] == Left && DEFAULT_PRIORITY[1] == Right && DEFAULT_PRIORITY[2] == Top;
    PreventOverflowOverfull(DEFAULT_PRIORITY, p, bounds, axis);
  }

  // ---------------------------------------------------------------- keepTogether and arrow

  /** `keepTogether` is the least move after which popper and floored reference touch or overlap. */
  lemma KeepTogetherIsNearest(placement: Placement, p: Rect, reference: Rect)
    requires p.Fresh() && p.width >= 0.0 && p.height >= 0.0
    requires reference.left <= reference.right && reference.top <= reference.bottom
    ensures var cross := CrossAxis(placement);
            var near, far := FloorOf(reference.Near(cross)), FloorOf(reference.Far(cross));
            var r := KeepTogetherRect(placement, p, reference);
            && r.Near(cross) == Clamp(p.Near(cross), near - p.Len(cross), far)
            && IsNearest(r.Near(cross), p.Near(cross), near - p.Len(cross), far)
            && r == p.MoveTo(cross, r.Near(cross))
  {
    var cross := CrossAxis(placement);
    FloorIsMonotone(reference.Near(cross), reference.Far(cross));
    KeepTogetherClamps(placement, p, reference);
    ClampIsNearest(p.Near(cross), FloorOf(reference.Near(cross)) - p.Len(cross), FloorOf(reference.Far(cross)));
  }

  lemma FloorIsMonotone(x: real, y: real)
    requires x <= y
    ensures FloorOf(x) <= FloorOf(y) <= y
  {
    assert x.Floor <= y.Floor;
  }

  lemma KeepTogetherClamps(placement: Placement, p: Rect, reference: Rect)
    requires p.Fresh() && p.Len(CrossAxis(placement)) >= 0.0
    requires FloorOf(reference.Near(CrossAxis(placement))) <= FloorOf(reference.Far(CrossAxis(placement)))
    ensures var cross := CrossAxis(placement);
            KeepTogetherRect(placement, p, reference) ==
              p.MoveTo(cross, Clamp(p.Near(cross), FloorOf(reference.Near(cross)) - p.Len(cross),
                                    FloorOf(reference.Far(cross))))
  {
  }

  lemma KeepTogetherIsIdempotent(placement: Placement, p: Rect, reference: Rect)
    requires p.Fresh() && p.width >= 0.0 && p.height >= 0.0
    requires reference.left <= reference.right && reference.top <= reference.bottom
    ensures var r := ClientRect(KeepTogetherRect(placement, p, reference));
            KeepTogetherRect(placement, r, reference) == r
  {
  }

  /**
   * `arrow` moves the popper as little as it must to share `a` pixels with the reference at either
   * end, provided both tests cannot fire at once.
   */
  lemma ArrowIsNearest(placement: Placement, p: Rect, reference: Rect, arrow: Size)
    requires p.Fresh()
    requires var cross := CrossAxis(placement);
             2.0 * arrow.Len(cross) <= p.Len(cross) + (reference.Far(cross) - reference.Near(cross))
    ensures var cross := CrossAxis(placement);
            var a := arrow.Len(cross);
            var r := ArrowRect(placement, p, reference, arrow);
            && r.Near(cross) == Clamp(p.Near(cross), reference.Near(cross) + a - p.Len(cross), reference.Far(cross) - a)
            && IsNearest(r.Near(cross), p.Near(cross),
                         reference.Near(cross) + a - p.Len(cross), reference.Far(cross) - a)
            && r == p.MoveTo(cross, r.Near(cross))
  {
    var cross := CrossAxis(placement);
    var a := arrow.Len(cross);
    ClampIsNearest(p.Near(cross), reference.Near(cross) + a - p.Len(cross), reference.Far(cross) - a);
  }

  /**
   * Where the arrow ends up: for zero margin and border, and before rounding, it lies wholly within
   * popper and reference, as near to the centre of the reference as the popper reaches.
   */
  lemma ArrowPointsAtReference(placement: Placement, p: Rect, reference: Rect, e: ArrowElement)
    requires p.Fresh() && reference.Fresh()
    requires e.marginLeft == 0.0 && e.marginTop == 0.0 && e.borderLeft == 0.0 && e.borderTop == 0.0
    requires var cross := CrossAxis(placement);
             e.size.Len(cross) <= p.Len(cross) && e.size.Len(cross) <= reference.Len(cross)
    ensures var cross := CrossAxis(placement);
            var a := e.size.Len(cross);
            var popper := ClientRect(ArrowRect(placement, p, reference, e.size));
            var start := popper.Near(cross) + ArrowOffset(placement, popper, reference, e);
            && popper.Near(cross) <= start && start + a <= popper.Far(cross)
            && reference.Near(cross) <= start && start + a <= reference.Far(cross)
            && IsNearest(start, reference.Near(cross) + (reference.Len(cross) - a) / 2.0,
                         popper.Near(cross), popper.Far(cross) - a)
  {
    ArrowIsNearest(placement, p, reference, e.size);
    var cross := CrossAxis(placement);
    var a := e.size.Len(cross);
    var popper := ClientRect(ArrowRect(placement, p, reference, e.size));
    ClampIsNearest(reference.Near(cross) + (reference.Len(cross) - a) / 2.0, popper.Near(cross), popper.Far(cross) - a);
  }

  /** Rounding moves the arrow by at most half a pixel, and goes upward from the middle. */
  lemma RoundIsNear(x: real)
    ensures Distance(Round(x) as real, x) <= 0.5
    ensures Round(x) as real - 0.5 <= x < Round(x) as real + 0.5
  {
  }

  // ---------------------------------------------------------------- The conflict test of flip

  ghost predicate WholePixels(popper: Rect, reference: Rect, bounds: Bounds) {
    forall axis: Axis ::
      && FloorOf(popper.Near(axis)) == popper.Near(axis) && FloorOf(popper.Far(axis)) == popper.Far(axis)
      && FloorOf(reference.Near(axis)) == reference.Near(axis) && FloorOf(reference.Far(axis)) == reference.Far(axis)
      && FloorOf(bounds.Near(axis)) == bounds.Near(axis) && FloorOf(bounds.Far(axis)) == bounds.Far(axis)
  }

  /**
   * On whole pixels a placement is free of conflict if and only if the popper lies in the strip
   * between the reference and the boundary on the side of the placement.
   */
  lemma NoConflictIsStrip(inst: Instance, d: Data)
    requires WholePixels(d.popper, d.reference, inst.flipBounds)
    ensures var base := d.placement.base;
            var axis := AxisOf(base);
            !Conflict(inst, d) <==>
              if IsNear(base) then
                inst.flipBounds.Near(axis) <= d.popper.Near(axis) && d.popper.Far(axis) <= d.reference.Near(axis)
              else d.reference.Far(axis) <= d.popper.Near(axis) && d.popper.Far(axis) <= inst.flipBounds.Far(axis)
  {
    var axis := AxisOf(d.placement.base);
    assert FloorOf(d.popper.Near(axis)) == d.popper.Near(axis) && FloorOf(d.popper.Far(axis)) == d.popper.Far(axis);
  }

  /** A variation flips when the popper overflows on the side that the variation aligns it with. */
  lemma VariationSideIsAligned(placement: Placement, popper: Rect, reference: Rect)
    requires placement.variation != Plain && popper.Fresh() && reference.Fresh()
    ensures var side := VariationSide(placement.base, placement.variation == Start);
            && AxisOf(side) == CrossAxis(placement)
            && ClientRect(ShiftRect(placement, popper, reference)).Edge(side) == reference.Edge(side)
  {
  }

  // ---------------------------------------------------------------- The three together

  /** The popper shares at least `a` pixels with the reference on the axis, at either end. */
  ghost predicate Attached(popper: Rect, reference: Rect, axis: Axis, a: real) {
    && reference.Near(axis) + a <= popper.Near(axis) + popper.Len(axis)
    && popper.Near(axis) <= reference.Far(axis) - a
  }

  /** The reference reaches far enough into the boundary, with the floor `keepTogether` takes. */
  ghost predicate ReachesInto(reference: Rect, bounds: Bounds, axis: Axis, a: real, len: real) {
    && reference.Near(axis) + a <= bounds.Far(axis)
    && bounds.Near(axis) <= reference.Far(axis) - a
    && (bounds.Near(axis) <= FloorOf(reference.Far(axis)) || bounds.Near(axis) <= reference.Near(axis) + a - len)
  }

  /** The three moves on one axis, as nearest points of three intervals; `low` and `high` are the floored edges. */
  lemma ThreeMoves(p: real, len: real, lo: real, hi: real, near: real, far: real, low: real, high: real, a: real)
    requires 0.0 <= len <= hi - lo && low <= near && low <= high <= far
    requires 0.0 <= a && 2.0 * a <= len + (far - near)
    ensures var p1 := Clamp(p, lo, hi - len);
            var p2 := Clamp(p1, low - len, high);
            var p3 := Clamp(p2, near + a - len, far - a);
            && near + a <= p3 + len && p3 <= far - a
            && (lo <= p3 && p3 + len <= hi
                <==> near + a <= hi && lo <= far - a && (lo <= high || lo <= near + a - len))
  {
  }

  lemma TwoMoves(p: real, len: real, lo: real, hi: real, low: real, high: real)
    requires 0.0 <= len <= hi - lo && low <= high
    ensures var p1 := Clamp(p, lo, hi - len);
            var p2 := Clamp(p1, low - len, high);
            lo <= p2 && p2 + len <= hi <==> low <= hi && lo <= high
  {
  }

  // ---------------------------------------------------------------- keepTogether and hide

  /** `preventOverflow`, re-normalisation, `keepTogether`, re-normalisation. */
  function PreventThenKeep(priority: seq<Side>, placement: Placement, p: Rect, bounds: Bounds, reference: Rect): Rect {
    ClientRect(KeepTogetherRect(placement, ClientRect(CheckSides(priority, p, bounds, false)), reference))
  }

  /**
   * With both modifiers on, a popper that fits is inside the boundary on the cross axis if and only
   * if the floored reference touches the boundary there; on the main axis it always is.
   */
  lemma KeptInsideIffReferenceTouches(priority: seq<Side>, placement: Placement, p: Rect, bounds: Bounds,
                                      reference: Rect)
    requires p.Fresh() && reference.left <= reference.right && reference.top <= reference.bottom
    requires forall side :: side in priority
    requires forall axis :: Fits(Size(p.width, p.height), bounds, axis)
    ensures var cross := CrossAxis(placement);
            var r := PreventThenKeep(priority, placement, p, bounds, reference);
            && Inside(r, bounds, cross.Other())
            && (Inside(r, bounds, cross)
                <==>
                && FloorOf(reference.Near(cross)) <= bounds.Far(cross)
                && bounds.Near(cross) <= FloorOf(reference.Far(cross)))
  {
    var cross := CrossAxis(placement);
    assert Fits(Size(p.width, p.height), bounds, cross) && Fits(Size(p.width, p.height), bounds, cross.Other());
    CheckSidesKeeps(priority, p, bounds, false);
    PreventOverflowIsNearest(priority, p, bounds, cross);
    PreventOverflowIsNearest(priority, p, bounds, cross.Other());
    FloorIsMonotone(reference.Near(cross), reference.Far(cross));
    KeepTogetherClamps(placement, ClientRect(CheckSides(priority, p, bounds, false)), reference);
    TwoMoves(p.Near(cross), p.Len(cross), bounds.Near(cross), bounds.Far(cross),
             FloorOf(reference.Near(cross)), FloorOf(reference.Far(cross)));
  }

  /** If `hide` reports the reference visible and the boundary lies on whole pixels, the popper stays inside it. */
  lemma VisibleMeansInside(priority: seq<Side>, placement: Placement, p: Rect, bounds: Bounds, reference: Rect)
    requires p.Fresh() && reference.left <= reference.right && reference.top <= reference.bottom
    requires forall side :: side in priority
    requires forall axis :: Fits(Size(p.width, p.height), bounds, axis)
    requires FloorOf(bounds.left) == bounds.left && FloorOf(bounds.top) == bounds.top
    requires !OutOfBounds(reference, bounds)
    ensures var r := PreventThenKeep(priority, placement, p, bounds, reference);
            Inside(r, bounds, X) && Inside(r, bounds, Y)
  {
    var cross := CrossAxis(placement);
    KeptInsideIffReferenceTouches(priority, placement, p, bounds, reference);
    FloorIsMonotone(bounds.Near(cross), reference.Far(cross));
    FloorIsMonotone(reference.Near(cross), reference.Near(cross));
    assert {X, Y} == {cross, cross.Other()};
  }
}
