/**
 * Popper's modifiers as they run: on one mutable `data` object whose offsets are objects too, so
 * that a local variable and `data.popper` can be two names of the same rectangle.
 */
module PopperEngine {
  import opened Geometry
  import opened PopperAuto
  import opened PopperPipeline
  import opened PopperSpec
  import OffsetParser
  import opened Optional

  /** An offsets object; its far edges go stale when only `left` or `top` is assigned. */
  class Offsets {
    var left: real
    var top: real
    var width: real
    var height: real
    var right: real
    var bottom: real

    function Value(): Rect
      reads this
    {
      Rect(left, top, width, height, right, bottom)
    }

    constructor (r: Rect)
      ensures Value() == r
    {
      left, top, width, height, right, bottom := r.left, r.top, r.width, r.height, r.right, r.bottom;
    }

    method SetNear(axis: Axis, value: real)
      modifies this
      ensures Value() == old(Value()).MoveTo(axis, value)
    {
      if axis == X {
        left := value;
      } else {
        top := value;
      }
    }
  }

  class DataObject {
    var placement: Placement
    var originalPlacement: Placement
    var flipped: bool
    var popper: Offsets
    var reference: Offsets
    var arrow: Option<int>
    var hidden: Option<bool>
    var boundaries: Option<Bounds>
    var crashed: bool

    function Value(): Data
      reads this, popper, reference
    {
      Data(placement, originalPlacement, flipped, popper.Value(), reference.Value(), arrow, hidden, boundaries, crashed)
    }

    ghost predicate Valid()
      reads this
    {
      popper != reference
    }

    /** What every modifier finds: far edges that agree with position and size. */
    ghost predicate Normalised()
      reads this, popper, reference
    {
      Valid() && popper.Value().Fresh() && reference.Value().Fresh()
    }

    constructor (placement: Placement, popper: Rect, reference: Rect)
      ensures Valid() && fresh(this.popper) && fresh(this.reference)
      ensures Value() == Data(placement, placement, false, popper, reference, None, None, None, false)
    {
      this.placement, originalPlacement, flipped := placement, placement, false;
      var p := new Offsets(popper);
      var r := new Offsets(reference);
      this.popper, this.reference := p, r;
      arrow, hidden, boundaries, crashed := None, None, None, false;
    }
  }

  // ---------------------------------------------------------------- Modifiers

  method RunShift(data: DataObject)
    requires data.Normalised()
    modifies data
    ensures data.Valid() && fresh({data.popper} - {old(data.popper)}) && data.reference == old(data.reference)
    ensures data.Value() == old(data.Value()).(
              popper := ShiftRect(old(data.placement), old(data.popper.Value()), data.reference.Value()))
  {
    if data.placement.variation != Plain {
      var popper, reference := data.popper, data.reference;
      var side := CrossAxis(data.placement);
      var position :=
        if data.placement.variation == Start then reference.Value().Near(side)
        else reference.Value().Near(side) + reference.Value().Len(side) - popper.Value().Len(side);
      data.popper := new Offsets(popper.Value().MoveTo(side, position));
    }
  }

  method Amounts(inst: Instance, data: DataObject) returns (offsets: (real, real))
    ensures offsets == OffsetAmounts(inst, data.Value())
  {
    match inst.offset {
      case Amount(pixels) => offsets := (pixels, 0.0);
      case Expression(text) =>
        offsets := OffsetParser.ParseOffset(text, data.popper.Value(), data.reference.Value(), inst.view,
                                            data.placement.base);
    }
  }

  method MoveBy(data: DataObject, along: real, away: real)
    requires data.Valid()
    modifies data.popper
    ensures data.Value()
            == old(data.Value()).(popper := OffsetRect(data.placement.base, old(data.popper.Value()), along, away))
  {
    var popper := data.popper;
    match data.placement.base {
      case Left =>
        popper.top := popper.top + along;
        popper.left := popper.left - away;
      case Right =>
        popper.top := popper.top + along;
        popper.left := popper.left + away;
      case Top =>
        popper.left := popper.left + along;
        popper.top := popper.top - away;
      case Bottom =>
        popper.left := popper.left + along;
        popper.top := popper.top + away;
    }
  }

  method RunOffset(inst: Instance, data: DataObject)
    requires data.Normalised()
    modifies data.popper
    ensures data.Valid() && data.popper == old(data.popper) && data.reference == old(data.reference)
    ensures data.Value() == Plainly(inst, Offset, old(data.Value()))
  {
    var offsets := Amounts(inst, data);
    MoveBy(data, offsets.0, offsets.1);
  }

  method RunPreventOverflow(inst: Instance, data: DataObject)
    requires data.Normalised()
    modifies data
    ensures data.Valid() && fresh(data.popper) && data.reference == old(data.reference)
    ensures data.Value() == Plainly(inst, PreventOverflow, old(data.Value()))
  {
    var bounds, escape := inst.overflowBounds, inst.escapeWithReference;
    data.boundaries := Some(bounds);
    var popper := data.popper.Value();
    for i := 0 to |inst.priority|
      invariant popper == CheckSides(inst.priority[..i], old(data.popper.Value()), bounds, escape)
    {
      var placement := inst.priority[i];
      var axis := AxisOf(placement);
      var value := popper.Near(axis);
      if IsNear(placement) {
        if popper.Near(axis) < bounds.Near(axis) && !escape {
          value := Max(popper.Near(axis), bounds.Near(axis));
        }
      } else {
        if popper.Far(axis) > bounds.Far(axis) && !escape {
          value := Min(popper.Near(axis), bounds.Far(axis) - popper.Len(axis));
        }
      }
      popper := popper.MoveTo(axis, value);
      assert inst.priority[..i + 1][..i] == inst.priority[..i];
    }
    assert inst.priority[..|inst.priority|] == inst.priority;
    data.popper := new Offsets(popper);
  }

  method RunKeepTogether(data: DataObject)
    requires data.Normalised()
    modifies data.popper
    ensures data.Valid() && data.popper == old(data.popper) && data.reference == old(data.reference)
    ensures data.Value() == old(data.Value()).(
              popper := KeepTogetherRect(data.placement, old(data.popper.Value()), data.reference.Value()))
  {
    var popper, reference := data.popper, data.reference;
    var axis := CrossAxis(data.placement);
    if popper.Value().Far(axis) < FloorOf(reference.Value().Near(axis)) {
      data.popper.SetNear(axis, FloorOf(reference.Value().Near(axis)) - popper.Value().Len(axis));
    }
    if popper.Value().Near(axis) > FloorOf(reference.Value().Far(axis)) {
      data.popper.SetNear(axis, FloorOf(reference.Value().Far(axis)));
    }
  }

  /** The first half of `arrow`: `popper` and `data.popper` are the same object throughout. */
  method ExtendKeepTogether(data: DataObject, arrow: Size)
    requires data.Valid()
    modifies data.popper
    ensures data.Value() == old(data.Value()).(
              popper := ArrowRect(data.placement, old(data.popper.Value()), data.reference.Value(), arrow))
  {
    var popper, reference := data.popper, data.reference.Value();
    var axis := CrossAxis(data.placement);
    var arrowSize := arrow.Len(axis);
    if reference.Far(axis) - arrowSize < popper.Value().Near(axis) {
      data.popper.SetNear(axis,
                          data.popper.Value().Near(axis)
                            - (popper.Value().Near(axis) - (reference.Far(axis) - arrowSize)));
    }
    if reference.Near(axis) + arrowSize > popper.Value().Far(axis) {
      data.popper.SetNear(axis,
                          data.popper.Value().Near(axis)
                            + (reference.Near(axis) + arrowSize - popper.Value().Far(axis)));
    }
  }

  method RunArrow(inst: Instance, data: DataObject)
    requires data.Normalised()
    modifies data, data.popper
    ensures data.Valid() && fresh({data.popper} - {old(data.popper)}) && data.reference == old(data.reference)
    ensures data.Value() == Plainly(inst, Arrow, old(data.Value()))
  {
    if !IsRequired(inst.modifiers, Arrow, KeepTogether) || inst.arrow.None? {
      return;
    }
    var element := inst.arrow.value;
    ExtendKeepTogether(data, element.size);
    data.popper := new Offsets(ClientRect(data.popper.Value()));
    data.arrow := Some(Round(ArrowOffset(data.placement, data.popper.Value(), data.reference.Value(), element)));
  }

  method RunInner(data: DataObject)
    requires data.Normalised()
    modifies data, data.popper
    ensures data.Valid() && fresh(data.popper) && data.reference == old(data.reference)
    ensures data.Value() == old(data.Value()).(
              popper := InnerRect(old(data.placement.base), old(data.popper.Value()), data.reference.Value()),
              placement := old(data.placement).(base := Opposite(old(data.placement.base))))
  {
    var popper, base := data.popper, data.placement.base;
    var subtractLength := !IsNear(base);
    var axis := AxisOf(base);
    popper.SetNear(axis, data.reference.Value().Edge(base) - if subtractLength then popper.Value().Len(axis) else 0.0);
    data.placement := data.placement.(base := Opposite(base));
    data.popper := new Offsets(ClientRect(popper.Value()));
  }

  method RunHide(inst: Instance, data: DataObject)
    requires data.Normalised()
    modifies data
    ensures data.Valid() && data.popper == old(data.popper) && data.reference == old(data.reference)
    ensures data.Value() == Plainly(inst, Hide, old(data.Value()))
  {
    if !IsRequired(inst.modifiers, Hide, PreventOverflow) {
      return;
    }
    match data.boundaries {
      case None => data.crashed := true;
      case Some(bounds) =>
        var reference := data.reference;
        if reference.bottom < bounds.top || reference.left > bounds.right
           || reference.top > bounds.bottom || reference.right < bounds.left {
          if data.hidden == Some(true) {
            return;
          }
          data.hidden := Some(true);
        } else {
          if data.hidden == Some(false) {
            return;
          }
          data.hidden := Some(false);
        }
    }
  }

  // ---------------------------------------------------------------- The driver and flip

  function ToRun(inst: Instance, ends: Option<Name>): seq<Modifier> {
    match ends
    case None => inst.modifiers
    case Some(name) => Before(inst.modifiers, name)
  }

  /** Both offsets objects are the old ones or new ones. */
  twostate predicate OwnsOffsets(data: DataObject)
    reads data
  {
    && data.Valid()
    && (data.popper == old(data.popper) || fresh(data.popper))
    && (data.reference == old(data.reference) || fresh(data.reference))
  }

  method RunModifiers(inst: Instance, data: DataObject, ends: Option<Name>)
    requires data.Valid()
    modifies data, data.popper
    ensures OwnsOffsets(data)
    ensures data.Value() == RunList(inst, ToRun(inst, ends), old(data.Value()))
    decreases if HasFlip(ToRun(inst, ends)) then 1 else 0, 1
  {
    var modifiersToRun := ToRun(inst, ends);
    for i := 0 to |modifiersToRun|
      invariant OwnsOffsets(data)
      invariant RunList(inst, modifiersToRun[i..], data.Value()) == RunList(inst, modifiersToRun, old(data.Value()))
    {
      var modifier := modifiersToRun[i];
      ghost var before := data.Value();
      if modifier.enabled {
        data.popper := new Offsets(ClientRect(data.popper.Value()));
        data.reference := new Offsets(ClientRect(data.reference.Value()));
        assert data.Value() == Normalise(before);
        match modifier.name {
          case Shift => RunShift(data);
          case Offset => RunOffset(inst, data);
          case PreventOverflow => RunPreventOverflow(inst, data);
          case KeepTogether => RunKeepTogether(data);
          case Arrow => RunArrow(inst, data);
          case Flip =>
            assert HasFlip(modifiersToRun);
            RunFlip(inst, data);
          case Inner => RunInner(data);
          case Hide => RunHide(inst, data);
        }
      }
      assert data.Value() == RunOne(inst, modifier, before);
      assert modifiersToRun[i..][0] == modifier && modifiersToRun[i..][1..] == modifiersToRun[i + 1..];
    }
  }

  method RunFlip(inst: Instance, data: DataObject)
    requires data.Normalised()
    modifies data, data.popper
    ensures OwnsOffsets(data)
    ensures data.Value() == FlipData(inst, old(data.Value()))
    decreases 1, 0
  {
    if IsEnabled(inst.modifiers, Inner) {
      return;
    }
    if data.flipped && data.placement == data.originalPlacement {
      return;
    }
    var boundaries := inst.flipBounds;
    var placement := PlainAt(data.placement.base);
    var variation := data.placement.variation;
    var flipOrder := FlipOrder(inst, placement.base);
    for index := 0 to |flipOrder|
      invariant OwnsOffsets(data)
      invariant FlipLoop(inst, data.Value(), flipOrder, index, placement, variation)
                == FlipData(inst, old(data.Value()))
    {
      if placement == flipOrder[index] && |flipOrder| != index + 1 {
        placement := PlainAt(data.placement.base);
        var popper, reference := data.popper.Value(), data.reference.Value();
        var overlapsRef := OverlapsReference(placement.base, popper, reference);
        var overflowsBoundaries := Overflows(placement.base, popper, boundaries);
        var flippedVariation := FlipsVariation(inst, placement.base, variation, popper);
        if overlapsRef || overflowsBoundaries || flippedVariation {
          if overlapsRef || overflowsBoundaries {
            placement := flipOrder[index + 1];
          }
          if flippedVariation {
            variation := OppositeVariation(variation);
          }
          RunRestart(inst, data, placement.Append(variation));
        }
      }
    }
  }

  /** The end of an iteration of `flip` that found a reason to restart. */
  method RunRestart(inst: Instance, data: DataObject, placement: Placement)
    requires data.Valid()
    modifies data, data.popper
    ensures OwnsOffsets(data)
    ensures data.Value() == Restart(inst, old(data.Value()), placement)
    decreases 0, 2
  {
    data.flipped := true;
    data.placement := placement;
    data.popper := new Offsets(Beside(inst.size, data.reference.Value(), placement.base, data.popper.Value()));
    BeforeHasNoFlip(inst.modifiers);
    RunModifiers(inst, data, Some(Flip));
  }

  /** What the page measures for an update, apart from what the modifiers take. */
  datatype Measured = Measured(reference: Rect, bounds: Bounds, extent: Option<Size>, client: Size)

  /** The two callbacks of a popper, of which an update calls one, or neither. */
  datatype Callback = Neither | OnCreate | OnUpdate

  class Positioner {
    var isDestroyed: bool
    var isCreated: bool

    constructor ()
      ensures !isDestroyed && !isCreated
    {
      isDestroyed, isCreated := false, false;
    }

    /**
     * `update`: choose the placement, place the popper beside the reference, run the modifiers, call
     * back. The original placement of the data is the one asked for.
     */
    method Update(inst: Instance, wanted: Wanted, page: Measured, previous: Rect)
      returns (data: DataObject?, callback: Callback)
      modifies `isCreated
      ensures isDestroyed ==> data == null && callback == Neither && isCreated == old(isCreated)
      ensures !isDestroyed ==> data != null && fresh(data) && data.Valid()
      ensures !isDestroyed ==> Answers(wanted, page, data.originalPlacement)
      ensures !isDestroyed ==>
                data.Value() == RunList(inst, inst.modifiers,
                                        FirstData(inst, data.originalPlacement, page.reference, previous))
      ensures !isDestroyed ==> isCreated && callback == if old(isCreated) then OnUpdate else OnCreate
    {
      if isDestroyed {
        return null, Neither;
      }
      var placement := ComputeAutoPlacement(wanted, page.reference, page.bounds, page.extent, page.client);
      data := Position(inst, placement, page.reference, previous);
      ChoiceAnswers(wanted, page);
      if !isCreated {
        isCreated := true;
        callback := OnCreate;
      } else {
        callback := OnUpdate;
      }
    }
  }

  method Position(inst: Instance, placement: Placement, reference: Rect, previous: Rect) returns (data: DataObject)
    ensures fresh(data) && data.Valid() && data.originalPlacement == placement
    ensures data.Value() == RunList(inst, inst.modifiers, FirstData(inst, placement, reference, previous))
  {
    data := new DataObject(placement, Beside(inst.size, reference, placement.base, previous), reference);
    RunListConserves(inst, inst.modifiers, FirstData(inst, placement, reference, previous));
    RunModifiers(inst, data, None);
  }

  /**
   * The placement an update starts with: a fixed one unchanged; an automatic one with its variation,
   * on the side with the most room, or on top if the boundaries have no width and height.
   */
  ghost predicate Answers(wanted: Wanted, page: Measured, placement: Placement) {
    match wanted
    case Fixed(p) => placement == p
    case Auto(variation) =>
      && placement == Placement(placement.base, variation)
      && match page.extent
         case None => placement.base == Top
         case Some(extent) =>
           IsBestSide(placement.base,
                      Size(extent.width, page.reference.top - page.bounds.top),
                      Size(page.bounds.right - page.reference.right, extent.height),
                      Size(extent.width, page.bounds.bottom - page.reference.bottom),
                      Size(page.reference.left - page.bounds.left, extent.height),
                      page.client)
  }

  lemma ChoiceAnswers(wanted: Wanted, page: Measured)
    ensures Answers(wanted, page,
                    ComputeAutoPlacement(wanted, page.reference, page.bounds, page.extent, page.client))
  {
    if wanted.Auto? && page.extent.Some? {
      AutoIsLargest(wanted.variation, page.reference, page.bounds, page.extent.value, page.client);
    }
  }
}
