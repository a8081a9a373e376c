/** What each of Popper's modifiers does to the `data` object, as functions on its value. */
module PopperSpec {
  import opened Geometry
  import OffsetParser
  import opened Optional

  // ---------------------------------------------------------------- The popper instance

  datatype Name = Shift | Offset | PreventOverflow | KeepTogether | Arrow | Flip | Inner | Hide

  datatype Modifier = Modifier(name: Name, order: int, enabled: bool)

  /** The `offset` option: a number (or a text that JavaScript reads as one), or an expression. */
  datatype OffsetOption = Amount(pixels: real) | Expression(text: string)

  datatype Behavior = FlipToOpposite | Clockwise | Counterclockwise | Fallbacks(order: seq<Placement>)

  /** The outer sizes of the arrow element, and the margin and border of the popper next to it. */
  datatype ArrowElement = ArrowElement(size: Size, marginTop: real, marginLeft: real, borderTop: real, borderLeft: real)

  /** Options of a popper, with every measurement taken from the page. */
  datatype Instance = Instance(
    modifiers: seq<Modifier>,
    size: Size,
    view: Size,
    offset: OffsetOption,
    priority: seq<Side>,
    escapeWithReference: bool,
    overflowBounds: Bounds,
    arrow: Option<ArrowElement>,
    behavior: Behavior,
    flipVariations: bool,
    flipBounds: Bounds)

  /**
   * The `data` object. `boundaries` is what `preventOverflow` leaves for `hide`; `crashed` is set
   * where the source would read a property of the undefined boundaries.
   */
  datatype Data = Data(
    placement: Placement,
    originalPlacement: Placement,
    flipped: bool,
    popper: Rect,
    reference: Rect,
    arrow: Option<int>,
    hidden: Option<bool>,
    boundaries: Option<Bounds>,
    crashed: bool)

  predicate IsEnabled(modifiers: seq<Modifier>, name: Name) {
    exists m <- modifiers :: m.name == name && m.enabled
  }

  /** The index of the first modifier called `name`, or -1. */
  function FindIndex(modifiers: seq<Modifier>, name: Name): (i: int)
    ensures -1 <= i < |modifiers|
    ensures i >= 0 ==> modifiers[i].name == name
    ensures forall j :: 0 <= j < (if i < 0 then |modifiers| else i) ==> modifiers[j].name != name
  {
    if modifiers == [] then -1
    else if modifiers[0].name == name then 0
    else
      var i := FindIndex(modifiers[1..], name);
      if i < 0 then -1 else i + 1
  }

  /** `modifiers.slice(0, findIndex(modifiers, 'name', ends))`; a missing name drops the last modifier. */
  function Before(modifiers: seq<Modifier>, ends: Name): seq<Modifier> {
    var i := FindIndex(modifiers, ends);
    if i >= 0 then modifiers[..i]
    else if modifiers == [] then []
    else modifiers[..|modifiers| - 1]
  }

  predicate IsRequired(modifiers: seq<Modifier>, requesting: Name, requested: Name) {
    var i := FindIndex(modifiers, requesting);
    && i >= 0
    && exists m <- modifiers :: m.name == requested && m.enabled && m.order < modifiers[i].order
  }

  // ---------------------------------------------------------------- Placing the popper beside the reference

  /** `getPopperOffsets`: only position and size; the far edges are those of `previous`. */
  function Beside(size: Size, reference: Rect, base: Side, previous: Rect): Rect {
    var main := AxisOf(base);
    var cross := main.Other();
    var sized := previous.(width := size.width, height := size.height);
    var centred := sized.MoveTo(cross, reference.Near(cross) + reference.Len(cross) / 2.0 - size.Len(cross) / 2.0);
    if IsNear(base) then centred.MoveTo(main, reference.Near(main) - size.Len(main))
    else centred.MoveTo(main, reference.Far(main))
  }

  /** The data that `update` starts with: the popper beside the reference. */
  function FirstData(inst: Instance, placement: Placement, reference: Rect, previous: Rect): Data {
    Data(placement, placement, false, Beside(inst.size, reference, placement.base, previous), reference, None, None,
         None, false)
  }

  // ---------------------------------------------------------------- Modifiers

  function ShiftRect(placement: Placement, popper: Rect, reference: Rect): Rect {
    var cross := CrossAxis(placement);
    match placement.variation
    case Plain => popper
    case Start => popper.MoveTo(cross, reference.Near(cross))
    case End => popper.MoveTo(cross, reference.Near(cross) + reference.Len(cross) - popper.Len(cross))
  }

  /** Moves the popper `along` the cross axis and `away` from the reference. */
  function OffsetRect(base: Side, popper: Rect, along: real, away: real): Rect {
    match base
    case Left => popper.(top := popper.top + along, left := popper.left - away)
    case Right => popper.(top := popper.top + along, left := popper.left + away)
    case Top => popper.(left := popper.left + along, top := popper.top - away)
    case Bottom => popper.(left := popper.left + along, top := popper.top + away)
  }

  function OffsetAmounts(inst: Instance, d: Data): (real, real) {
    match inst.offset
    case Amount(pixels) => (pixels, 0.0)
    case Expression(text) => OffsetParser.Offsets(text, d.popper, d.reference, inst.view, d.placement.base)
  }

  /** One turn of `preventOverflow`'s loop: the far edge tested is the one the popper arrived with. */
  function CheckSide(side: Side, popper: Rect, bounds: Bounds, escape: bool): Rect {
    var axis := AxisOf(side);
    if IsNear(side) then
      if popper.Near(axis) < bounds.Near(axis) && !escape then
        popper.MoveTo(axis, Max(popper.Near(axis), bounds.Near(axis)))
      else popper
    else
      if popper.Far(axis) > bounds.Far(axis) && !escape then
        popper.MoveTo(axis, Min(popper.Near(axis), bounds.Far(axis) - popper.Len(axis)))
      else popper
  }

  function CheckSides(priority: seq<Side>, popper: Rect, bounds: Bounds, escape: bool): Rect {
    if priority == [] then popper
    else
      var n := |priority| - 1;
      CheckSide(priority[n], CheckSides(priority[..n], popper, bounds, escape), bounds, escape)
  }

  function KeepTogetherRect(placement: Placement, popper: Rect, reference: Rect): Rect {
    var cross := CrossAxis(placement);
    var near, far := FloorOf(reference.Near(cross)), FloorOf(reference.Far(cross));
    var p := if popper.Far(cross) < near then popper.MoveTo(cross, near - popper.Len(cross)) else popper;
    if p.Near(cross) > far then p.MoveTo(cross, far) else p
  }

  /** The popper of `arrow`, before its far edges are recomputed. The second test sees the old far edge. */
  function ArrowRect(placement: Placement, popper: Rect, reference: Rect, arrow: Size): Rect {
    var cross := CrossAxis(placement);
    var a := arrow.Len(cross);
    var p :=
      if reference.Far(cross) - a < popper.Near(cross) then
        popper.MoveTo(cross, popper.Near(cross) - (popper.Near(cross) - (reference.Far(cross) - a)))
      else popper;
    if reference.Near(cross) + a > p.Far(cross) then
      p.MoveTo(cross, p.Near(cross) + (reference.Near(cross) + a - p.Far(cross)))
    else p
  }

  /** Where `arrow` puts the arrow inside the popper, before rounding. */
  function ArrowOffset(placement: Placement, popper: Rect, reference: Rect, e: ArrowElement): real {
    var cross := CrossAxis(placement);
    var a := e.size.Len(cross);
    var centre := reference.Near(cross) + reference.Len(cross) / 2.0 - a / 2.0;
    var margin := if cross == X then e.marginLeft else e.marginTop;
    var border := if cross == X then e.borderLeft else e.borderTop;
    Max(Min(popper.Len(cross) - a, centre - popper.Near(cross) - margin - border), 0.0)
  }

  /** `Math.round`: to the nearest integer, halves upward. */
  function Round(x: real): int {
    (x + 0.5).Floor
  }

  /** Inside the reference, flush with the side of the placement. */
  function InnerRect(base: Side, popper: Rect, reference: Rect): Rect {
    var main := AxisOf(base);
    ClientRect(popper.MoveTo(main, reference.Edge(base) - if IsNear(base) then 0.0 else popper.Len(main)))
  }

  predicate OutOfBounds(reference: Rect, bounds: Bounds) {
    || reference.bottom < bounds.top
    || reference.left > bounds.right
    || reference.top > bounds.bottom
    || reference.right < bounds.left
  }

  /** Every modifier except `flip`. */
  function Plainly(inst: Instance, name: Name, d: Data): Data
    requires name != Flip
  {
    match name
    case Shift => d.(popper := ShiftRect(d.placement, d.popper, d.reference))
    case Offset =>
      var (along, away) := OffsetAmounts(inst, d);
      d.(popper := OffsetRect(d.placement.base, d.popper, along, away))
    case PreventOverflow =>
      d.(popper := CheckSides(inst.priority, d.popper, inst.overflowBounds, inst.escapeWithReference),
         boundaries := Some(inst.overflowBounds))
    case KeepTogether => d.(popper := KeepTogetherRect(d.placement, d.popper, d.reference))
    case Arrow =>
      if !IsRequired(inst.modifiers, Arrow, KeepTogether) || inst.arrow.None? then d
      else
        var popper := ClientRect(ArrowRect(d.placement, d.popper, d.reference, inst.arrow.value.size));
        d.(popper := popper, arrow := Some(Round(ArrowOffset(d.placement, popper, d.reference, inst.arrow.value))))
    case Inner =>
      d.(popper := InnerRect(d.placement.base, d.popper, d.reference),
         placement := d.placement.(base := Opposite(d.placement.base)))
    case Hide =>
      if !IsRequired(inst.modifiers, Hide, PreventOverflow) then d
      else if d.boundaries.None? then d.(crashed := true)
      else d.(hidden := Some(OutOfBounds(d.reference, d.boundaries.value)))
  }

  // ---------------------------------------------------------------- Flip

  predicate OverlapsReference(base: Side, popper: Rect, reference: Rect) {
    match base
    case Left => FloorOf(popper.right) > FloorOf(reference.left)
    case Right => FloorOf(popper.left) < FloorOf(reference.right)
    case Top => FloorOf(popper.bottom) > FloorOf(reference.top)
    case Bottom => FloorOf(popper.top) < FloorOf(reference.bottom)
  }

  predicate Overflows(side: Side, popper: Rect, bounds: Bounds) {
    match side
    case Left => FloorOf(popper.left) < FloorOf(bounds.left)
    case Right => FloorOf(popper.right) > FloorOf(bounds.right)
    case Top => FloorOf(popper.top) < FloorOf(bounds.top)
    case Bottom => FloorOf(popper.bottom) > FloorOf(bounds.bottom)
  }

  predicate Conflict(inst: Instance, d: Data) {
    || OverlapsReference(d.placement.base, d.popper, d.reference)
    || Overflows(d.placement.base, d.popper, inst.flipBounds)
  }

  /** The side a variation is aligned with: `start` is left or top, `end` is right or bottom. */
  function VariationSide(base: Side, start: bool): Side {
    if AxisOf(base) == Y then (if start then Left else Right)
    else (if start then Top else Bottom)
  }

  predicate FlipsVariation(inst: Instance, base: Side, variation: Variation, popper: Rect) {
    && inst.flipVariations
    && variation != Plain
    && Overflows(VariationSide(base, variation == Start), popper, inst.flipBounds)
  }

  const VALID_PLACEMENTS: seq<Placement> := [
    Placement(Top, Start), Placement(Top, Plain), Placement(Top, End),
    Placement(Right, Start), Placement(Right, Plain), Placement(Right, End),
    Placement(Bottom, End), Placement(Bottom, Plain), Placement(Bottom, Start),
    Placement(Left, End), Placement(Left, Plain), Placement(Left, Start)]

  function IndexOf(placements: seq<Placement>, placement: Placement): (i: int)
    ensures -1 <= i < |placements|
    ensures i >= 0 ==> placements[i] == placement
    ensures forall j :: 0 <= j < (if i < 0 then |placements| else i) ==> placements[j] != placement
  {
    if placements == [] then -1
    else if placements[0] == placement then 0
    else
      var i := IndexOf(placements[1..], placement);
      if i < 0 then -1 else i + 1
  }

  function Reverse(placements: seq<Placement>): (r: seq<Placement>)
    ensures |r| == |placements|
    ensures forall i :: 0 <= i < |r| ==> r[i] == placements[|r| - 1 - i]
  {
    if placements == [] then [] else Reverse(placements[1..]) + [placements[0]]
  }

  /** `clockwise`: the placements after the given one and then those before it. */
  function ClockwiseOrder(placements: seq<Placement>, placement: Placement, counter: bool): seq<Placement>
    requires placements != []
  {
    var index := IndexOf(placements, placement);
    var before := if index < 0 then |placements| - 1 else index;
    var arr := placements[index + 1..] + placements[..before];
    if counter then Reverse(arr) else arr
  }

  function FlipOrder(inst: Instance, base: Side): seq<Placement> {
    match inst.behavior
    case FlipToOpposite => [PlainAt(base), PlainAt(Opposite(base))]
    case Clockwise => ClockwiseOrder(VALID_PLACEMENTS, PlainAt(base), false)
    case Counterclockwise => ClockwiseOrder(VALID_PLACEMENTS, PlainAt(base), true)
    case Fallbacks(order) => order
  }

  predicate FlipIsSkipped(inst: Instance, d: Data) {
    IsEnabled(inst.modifiers, Inner) || (d.flipped && d.placement == d.originalPlacement)
  }

  ghost predicate HasFlip(modifiers: seq<Modifier>) {
    exists i :: 0 <= i < |modifiers| && modifiers[i].name == Flip
  }

  /** `flip` re-enters the driver on a list without `flip`, whatever the list it stands in. */
  lemma BeforeHasNoFlip(modifiers: seq<Modifier>)
    ensures !HasFlip(Before(modifiers, Flip)) && |Before(modifiers, Flip)| <= |modifiers|
  {
  }

  /** The popper beside its reference for another placement. */
  function Placed(inst: Instance, d: Data, placement: Placement): Data {
    d.(flipped := true, placement := placement, popper := Beside(inst.size, d.reference, placement.base, d.popper))
  }

  /** The restart of the update with another placement: position first, then all modifiers before `flip`. */
  function Restart(inst: Instance, d: Data, placement: Placement): Data
    decreases 0, |inst.modifiers|, 10
  {
    BeforeHasNoFlip(inst.modifiers);
    RunList(inst, Before(inst.modifiers, Flip), Placed(inst, d, placement))
  }

  /** Iterations `i`, `i + 1`, ... of flip's loop, with its local variables `placement` and `variation`. */
  function FlipLoop(inst: Instance, d: Data, order: seq<Placement>, i: nat, local: Placement,
                    variation: Variation): Data
    decreases 1, 0, 6, |order| - i
  {
    if i >= |order| then d
    else if local != order[i] || |order| == i + 1 then FlipLoop(inst, d, order, i + 1, local, variation)
    else
      var base := d.placement.base;
      var conflict := Conflict(inst, d);
      var flipVariation := FlipsVariation(inst, base, variation, d.popper);
      var local' := if conflict then order[i + 1] else PlainAt(base);
      var variation' := if flipVariation then OppositeVariation(variation) else variation;
      var d' := if conflict || flipVariation then Restart(inst, d, local'.Append(variation')) else d;
      FlipLoop(inst, d', order, i + 1, local', variation')
  }

  function FlipData(inst: Instance, d: Data): Data
    decreases 1, 0, 7
  {
    if FlipIsSkipped(inst, d) then d
    else FlipLoop(inst, d, FlipOrder(inst, d.placement.base), 0, PlainAt(d.placement.base), d.placement.variation)
  }

  // ---------------------------------------------------------------- The driver

  function Normalise(d: Data): Data {
    d.(popper := ClientRect(d.popper), reference := ClientRect(d.reference))
  }

  function RunOne(inst: Instance, m: Modifier, d: Data): Data
    decreases if m.name == Flip then 1 else 0, 0, 8
  {
    if !m.enabled then d
    else if m.name == Flip then FlipData(inst, Normalise(d))
    else Plainly(inst, m.name, Normalise(d))
  }

  /** The modifiers of the list in order, each on the re-normalised result of the one before. */
  function RunList(inst: Instance, modifiers: seq<Modifier>, d: Data): Data
    decreases if HasFlip(modifiers) then 1 else 0, |modifiers|, 9
  {
    if modifiers == [] then d
    else RunList(inst, modifiers[1..], RunOne(inst, modifiers[0], d))
  }
}
