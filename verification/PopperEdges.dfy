/** When `flip` tests an attempt by far edges that are out of date, and when that misleads it. */
module PopperEdges {
  import opened Geometry
  import opened Optional
  import opened PopperPipeline
  import opened PopperSearch
  import opened PopperSpec
  import opened PopperTheorems

  // ---------------------------------------------------------------- The last modifier before flip

  /** The index of the last enabled modifier, or -1. */
  function LastEnabled(modifiers: seq<Modifier>): (i: int)
    ensures -1 <= i < |modifiers|
    ensures i >= 0 ==> modifiers[i].enabled
    ensures forall j :: i < j < |modifiers| ==> !modifiers[j].enabled
  {
    if modifiers == [] then -1
    else if modifiers[|modifiers| - 1].enabled then |modifiers| - 1
    else LastEnabled(modifiers[..|modifiers| - 1])
  }

  lemma {:induction false} DisabledRun(inst: Instance, off: seq<Modifier>, d: Data)
    requires forall i :: 0 <= i < |off| ==> !off[i].enabled
    ensures RunList(inst, off, d) == d
    decreases |off|
  {
    if off != [] {
      DisabledRun(inst, off[1..], d);
    }
  }

  /** A run is that of its last enabled modifier on the re-normalised result of those in front. */
  lemma RunToLast(inst: Instance, modifiers: seq<Modifier>, d: Data)
    requires !HasFlip(modifiers)
    ensures var i := LastEnabled(modifiers);
            RunList(inst, modifiers, d) ==
              if i < 0 then d
              else Plainly(inst, modifiers[i].name, Normalise(RunList(inst, modifiers[..i], d)))
  {
    var i := LastEnabled(modifiers);
    if i < 0 {
      DisabledRun(inst, modifiers, d);
    } else {
      var d1 := RunList(inst, modifiers[..i], d);
      var d2 := RunOne(inst, modifiers[i], d1);
      assert modifiers == modifiers[..i] + ([modifiers[i]] + modifiers[i + 1..]);
      RunAppend(inst, modifiers[..i], [modifiers[i]] + modifiers[i + 1..], d);
      RunAppend(inst, [modifiers[i]], modifiers[i + 1..], d1);
      RunSingle(inst, modifiers[i], d1);
      DisabledRun(inst, modifiers[i + 1..], d2);
      assert modifiers[i].name != Flip;
    }
  }

  /** `q` is `p` moved, with the same size and the same stored far edges. */
  predicate OnlyMoved(p: Rect, q: Rect) {
    q.width == p.width && q.height == p.height && q.right == p.right && q.bottom == p.bottom
  }

  lemma StaleRectIff(p: Rect, q: Rect)
    requires p.Fresh() && OnlyMoved(p, q)
    ensures ClientRect(q) == q <==> q.SameBox(p)
  {
  }

  lemma SingleMoves(inst: Instance, d: Data, along: real, away: real)
    ensures OnlyMoved(d.popper, ShiftRect(d.placement, d.popper, d.reference))
    ensures OnlyMoved(d.popper, OffsetRect(d.placement.base, d.popper, along, away))
    ensures OnlyMoved(d.popper, KeepTogetherRect(d.placement, d.popper, d.reference))
    ensures OnlyMoved(d.popper, CheckSides(inst.priority, d.popper, inst.overflowBounds, inst.escapeWithReference))
  {
    CheckSidesKeeps(inst.priority, d.popper, inst.overflowBounds, inst.escapeWithReference);
  }

  /** Apart from `arrow` and `inner`, the modifiers leave the size and the stored far edges alone. */
  lemma KeepsFarEdges(inst: Instance, name: Name, n: Data)
    requires name != Flip && name != Arrow && name != Inner
    ensures OnlyMoved(n.popper, Plainly(inst, name, n).popper) && Plainly(inst, name, n).reference == n.reference
  {
    var along, away := OffsetMoves(inst, n);
    SingleMoves(inst, n, along, away);
  }

  /** On up-to-date offsets a modifier leaves stale edges exactly if it moves the popper without recomputing them. */
  lemma StaleIffMoved(inst: Instance, name: Name, n: Data)
    requires name != Flip && Normalise(n) == n
    ensures var r := Plainly(inst, name, n);
            Normalise(r) == r <==> name == Arrow || name == Inner || r.popper.SameBox(n.popper)
  {
    assert ClientRect(n.popper) == n.popper && ClientRect(n.reference) == n.reference;
    if name != Arrow && name != Inner {
      KeepsFarEdges(inst, name, n);
      StaleRectIff(n.popper, Plainly(inst, name, n).popper);
    }
  }

  /**
   * The edges that a restart leaves: with no enabled modifier before `flip` they are those stored
   * before, which agree if the new box ends there; otherwise the last enabled modifier is `arrow` or
   * `inner`, which recompute them, or it has left the popper where it was.
   */
  ghost predicate EdgesAgree(inst: Instance, d: Data, placement: Placement) {
    var before, placed := Before(inst.modifiers, Flip), Placed(inst, d, placement);
    var i := LastEnabled(before);
    if i < 0 then
      placed.popper.left + inst.size.width == d.popper.right && placed.popper.top + inst.size.height == d.popper.bottom
    else
      var n := Normalise(RunList(inst, before[..i], placed));
      || before[i].name == Arrow || before[i].name == Inner
      || Plainly(inst, before[i].name, n).popper.SameBox(n.popper)
  }

  /** Every attempt after the first is tested with up-to-date edges if and only if these conditions hold. */
  lemma FreshIffEdgesAgree(inst: Instance, d: Data, placement: Placement)
    requires d.reference.Fresh()
    ensures var r := Restart(inst, d, placement); Normalise(r) == r <==> EdgesAgree(inst, d, placement)
  {
    var before, placed := Before(inst.modifiers, Flip), Placed(inst, d, placement);
    var i := LastEnabled(before);
    BeforeHasNoFlip(inst.modifiers);
    RunToLast(inst, before, placed);
    if i < 0 {
      assert ClientRect(d.reference) == d.reference;
    } else {
      assert before[i].name != Flip;
      StaleIffMoved(inst, before[i].name, Normalise(RunList(inst, before[..i], placed)));
    }
  }

  /** The guards under which a modifier leaves the up-to-date popper of `n` where it is. */
  ghost predicate LeavesInPlace(inst: Instance, name: Name, n: Data) {
    var cross := CrossAxis(n.placement);
    match name
    case Shift =>
      && (n.placement.variation == Start ==> n.popper.Near(cross) == n.reference.Near(cross))
      && (n.placement.variation == End ==> n.popper.Far(cross) == n.reference.Far(cross))
    case Offset => OffsetAmounts(inst, n) == (0.0, 0.0)
    case PreventOverflow =>
      || inst.escapeWithReference
      || (StaysOnAxis(inst.priority, n.popper, inst.overflowBounds, X)
          && StaysOnAxis(inst.priority, n.popper, inst.overflowBounds, Y))
    case KeepTogether =>
      FloorOf(n.reference.Near(cross)) <= n.popper.Far(cross) && n.popper.Near(cross) <= FloorOf(n.reference.Far(cross))
    case _ => true
  }

  lemma ShiftStays(placement: Placement, p: Rect, reference: Rect)
    requires p.Fresh() && reference.Fresh()
    ensures var cross := CrossAxis(placement);
            ShiftRect(placement, p, reference).SameBox(p) <==>
              && (placement.variation == Start ==> p.Near(cross) == reference.Near(cross))
              && (placement.variation == End ==> p.Far(cross) == reference.Far(cross))
  {
  }

  lemma OffsetStays(base: Side, p: Rect, along: real, away: real)
    ensures OffsetRect(base, p, along, away).SameBox(p) <==> (along, away) == (0.0, 0.0)
  {
  }

  lemma PreventStays(inst: Instance, p: Rect)
    requires p.Fresh()
    ensures CheckSides(inst.priority, p, inst.overflowBounds, inst.escapeWithReference).SameBox(p) <==>
              || inst.escapeWithReference
              || (StaysOnAxis(inst.priority, p, inst.overflowBounds, X)
                  && StaysOnAxis(inst.priority, p, inst.overflowBounds, Y))
  {
    CheckSidesKeeps(inst.priority, p, inst.overflowBounds, inst.escapeWithReference);
    if !inst.escapeWithReference {
      CheckSidesStay(inst.priority, p, inst.overflowBounds, X);
      CheckSidesStay(inst.priority, p, inst.overflowBounds, Y);
    }
  }

  lemma KeepStays(placement: Placement, p: Rect, reference: Rect)
    requires p.Fresh() && p.width >= 0.0 && p.height >= 0.0
    requires reference.left <= reference.right && reference.top <= reference.bottom
    ensures var cross := CrossAxis(placement);
            KeepTogetherRect(placement, p, reference).SameBox(p) <==>
              FloorOf(reference.Near(cross)) <= p.Far(cross) && p.Near(cross) <= FloorOf(reference.Far(cross))
  {
    var cross := CrossAxis(placement);
    FloorIsMonotone(reference.Near(cross), reference.Far(cross));
    KeepTogetherClamps(placement, p, reference);
  }

  /** They are exact, for boxes with no negative length. */
  lemma UnmovedIffGuards(inst: Instance, name: Name, n: Data)
    requires name != Flip && name != Arrow && name != Inner && Normalise(n) == n
    requires n.popper.width >= 0.0 && n.popper.height >= 0.0 && n.reference.width >= 0.0 && n.reference.height >= 0.0
    ensures Plainly(inst, name, n).popper.SameBox(n.popper) <==> LeavesInPlace(inst, name, n)
  {
    NormalIsFresh(n);
    match name {
      case Shift => ShiftStays(n.placement, n.popper, n.reference);
      case Offset =>
        var amounts := OffsetAmounts(inst, n);
        OffsetStays(n.placement.base, n.popper, amounts.0, amounts.1);
      case PreventOverflow => PreventStays(inst, n.popper);
      case KeepTogether => KeepStays(n.placement, n.popper, n.reference);
      case Hide =>
    }
  }

  lemma NormalIsFresh(n: Data)
    requires Normalise(n) == n
    ensures n.popper.Fresh() && n.reference.Fresh()
  {
    assert ClientRect(n.popper) == n.popper && ClientRect(n.reference) == n.reference;
  }

  /**
   * With an enabled `arrow` last, as in both poppers that Bootstrap makes, the edges are up to date,
   * arrow element or not.
   */
  lemma RestartIsFresh(inst: Instance, d: Data, placement: Placement)
    requires d.reference.Fresh()
    requires var before := Before(inst.modifiers, Flip);
             LastEnabled(before) >= 0 && before[LastEnabled(before)].name == Arrow
    ensures var r := Restart(inst, d, placement); Normalise(r) == r
  {
    FreshIffEdgesAgree(inst, d, placement);
  }

  // ---------------------------------------------------------------- Whether the conflict test is misled

  /** The half of the conflict test that reads the edge of the popper assigned last. */
  predicate NearEdgeConflicts(inst: Instance, d: Data) {
    var base := d.placement.base;
    if IsNear(base) then Overflows(base, d.popper, inst.flipBounds) else OverlapsReference(base, d.popper, d.reference)
  }

  /** What the other half compares the far edge with. */
  function FarLimit(inst: Instance, d: Data): real {
    var base := d.placement.base;
    FloorOf(if IsNear(base) then d.reference.Edge(base) else inst.flipBounds.Far(AxisOf(base)))
  }

  /**
   * A stale edge changes the outcome of the conflict test if and only if the other half finds no
   * conflict and the limit lies between the stored far edge and the true one.
   */
  lemma TestIsTrueIff(inst: Instance, d: Data)
    requires d.reference.Fresh()
    ensures var axis := AxisOf(d.placement.base);
            var stored, actual := FloorOf(d.popper.Far(axis)), FloorOf(d.popper.Near(axis) + d.popper.Len(axis));
            (Conflict(inst, d) <==> Conflict(inst, Normalise(d)))
            <==> NearEdgeConflicts(inst, d) || (stored > FarLimit(inst, d) <==> actual > FarLimit(inst, d))
  {
    assert ClientRect(d.reference) == d.reference;
  }

  /**
   * Only `preventOverflow` and `offset` move the popper on the axis the test looks at. So it can be
   * misled only if one of them is the last enabled modifier before `flip`, or if there is none.
   */
  lemma MisledOnlyBy(inst: Instance, d: Data, placement: Placement)
    requires d.reference.Fresh()
    requires var r := Restart(inst, d, placement); Conflict(inst, r) != Conflict(inst, Normalise(r))
    ensures var before := Before(inst.modifiers, Flip);
            var i := LastEnabled(before);
            i < 0 || before[i].name == PreventOverflow || before[i].name == Offset
  {
    var before, placed := Before(inst.modifiers, Flip), Placed(inst, d, placement);
    var i := LastEnabled(before);
    BeforeHasNoFlip(inst.modifiers);
    RunToLast(inst, before, placed);
    if i >= 0 && before[i].name != PreventOverflow && before[i].name != Offset {
      assert before[i].name != Flip;
      TestIsTrueAfter(inst, before[i].name, Normalise(RunList(inst, before[..i], placed)));
      assert false;
    }
  }

  lemma TestIsTrueAfter(inst: Instance, name: Name, n: Data)
    requires name != Flip && name != PreventOverflow && name != Offset && Normalise(n) == n
    ensures var r := Plainly(inst, name, n); Conflict(inst, r) == Conflict(inst, Normalise(r))
  {
    StaleIffMoved(inst, name, n);
    if name == Shift || name == KeepTogether {
      MoversOfCrossAxis(inst, name, n);
    }
  }

  lemma MoversOfCrossAxis(inst: Instance, name: Name, n: Data)
    requires (name == Shift || name == KeepTogether) && Normalise(n) == n
    ensures var r := Plainly(inst, name, n); Conflict(inst, r) <==> Conflict(inst, Normalise(r))
  {
    assert ClientRect(n.popper) == n.popper && ClientRect(n.reference) == n.reference;
  }

  // ---------------------------------------------------------------- Two cases in which it is

  const STALE_BOUNDS := Bounds(0.0, 0.0, 40.0, 100.0)

  /** A popper made with `arrow` and `keepTogether` off: `preventOverflow` is the last modifier before `flip`. */
  const STALE_INSTANCE := Instance(
    [Modifier(PreventOverflow, 300, true), Modifier(Flip, 600, true)],
    Size(15.0, 10.0), Size(100.0, 100.0), Amount(0.0), DEFAULT_PRIORITY, false, STALE_BOUNDS, None,
    Fallbacks([PlainAt(Right), PlainAt(Left), PlainAt(Top)]), false, STALE_BOUNDS)

  const STALE_REFERENCE := Rect(10.0, 40.0, 20.0, 20.0, 30.0, 60.0)

  /** The popper right of the reference, pushed back over it by the boundary. */
  const STALE_DATA := Data(
    PlainAt(Right), PlainAt(Right), false,
    Rect(25.0, 45.0, 15.0, 10.0, 40.0, 55.0), STALE_REFERENCE, None, None, Some(STALE_BOUNDS), false)

  /** The attempt on the left: the stored far edge touches the reference, the true one lies inside it. */
  lemma StaleAttempt()
    ensures var r := Restart(STALE_INSTANCE, STALE_DATA, PlainAt(Left));
            && r.popper == Rect(0.0, 45.0, 15.0, 10.0, 10.0, 55.0) && r.reference == STALE_REFERENCE
            && r.placement == PlainAt(Left)
  {
    var inst, d := STALE_INSTANCE, STALE_DATA;
    var po := inst.modifiers[0];
    StaleBefore();
    var start := Placed(inst, d, PlainAt(Left));
    assert Restart(inst, d, PlainAt(Left)) == RunList(inst, [po], start);
    RunSingle(inst, po, start);
    PreventOnStale(ClientRect(start.popper), X);
    PreventOnStale(ClientRect(start.popper), Y);
  }

  lemma StaleBefore()
    ensures Before(STALE_INSTANCE.modifiers, Flip) == [STALE_INSTANCE.modifiers[0]]
  {
    assert FindIndex(STALE_INSTANCE.modifiers, Flip) == 1;
  }

  lemma PreventOnStale(p: Rect, axis: Axis)
    requires p.Fresh() && p.width == 15.0 && p.height == 10.0
    ensures var r := CheckSides(DEFAULT_PRIORITY, p, STALE_BOUNDS, false);
            && r.Near(axis) == Clamp(p.Near(axis), STALE_BOUNDS.Near(axis), STALE_BOUNDS.Far(axis) - p.Len(axis))
            && r.width == p.width && r.height == p.height && r.right == p.right && r.bottom == p.bottom
  {
    assert DEFAULT_PRIORITY[0] == Left && DEFAULT_PRIORITY[1] == Right;
    assert DEFAULT_PRIORITY[2] == Top && DEFAULT_PRIORITY[3] == Bottom;
    PreventOverflowIsNearest(DEFAULT_PRIORITY, p, STALE_BOUNDS, axis);
    CheckSidesKeeps(DEFAULT_PRIORITY, p, STALE_BOUNDS, false);
  }

  /**
   * The whole update from `STALE_DATA`'s placement: `flip` gives up the right for the left and stays
   * there, although the popper covers part of the reference; with up-to-date edges it would not.
   */
  lemma StaleEdgeHidesOverlap(previous: Rect)
    ensures Normalise(RunOne(STALE_INSTANCE, STALE_INSTANCE.modifiers[0],
                             FirstData(STALE_INSTANCE, PlainAt(Right), STALE_REFERENCE, previous))) == STALE_DATA
    ensures var r := RunList(STALE_INSTANCE, STALE_INSTANCE.modifiers,
                             FirstData(STALE_INSTANCE, PlainAt(Right), STALE_REFERENCE, previous));
            && r == FlipData(STALE_INSTANCE, STALE_DATA)
            && r.placement == PlainAt(Left)
            && r.popper.left + r.popper.width > STALE_REFERENCE.left
            && Conflict(STALE_INSTANCE, Normalise(r))
  {
    var inst := STALE_INSTANCE;
    var first := FirstData(inst, PlainAt(Right), STALE_REFERENCE, previous);
    PreventOnStale(ClientRect(first.popper), X);
    PreventOnStale(ClientRect(first.popper), Y);
    var d1 := RunOne(inst, inst.modifiers[0], first);
    assert inst.modifiers == [inst.modifiers[0]] + [inst.modifiers[1]];
    RunAppend(inst, [inst.modifiers[0]], [inst.modifiers[1]], first);
    RunSingle(inst, inst.modifiers[0], first);
    RunSingle(inst, inst.modifiers[1], d1);
    StaleSearch();
  }

  lemma StaleSearch()
    ensures var r := FlipData(STALE_INSTANCE, STALE_DATA);
            && r.popper == Rect(0.0, 45.0, 15.0, 10.0, 10.0, 55.0) && r.reference == STALE_REFERENCE
            && r.placement == PlainAt(Left)
  {
    var inst, d := STALE_INSTANCE, STALE_DATA;
    var order := FlipOrder(inst, Right);
    var a := AttemptAt(inst, d, order, 0, 0);
    StaleAttempt();
    assert AttemptAt(inst, d, order, 0, 1) == Retry(inst, a, order[1]);
    assert !IsEnabled(inst.modifiers, Inner);
    var k := FlipFindsFirst(inst, d, 0);
    assert k == 1;
  }

  const BARE_BOUNDS := Bounds(0.0, 0.0, 40.0, 100.0)

  /** A popper made with every modifier before `flip` off. */
  const BARE_INSTANCE := Instance(
    [Modifier(Flip, 600, true)],
    Size(8.0, 10.0), Size(100.0, 100.0), Amount(0.0), DEFAULT_PRIORITY, false, BARE_BOUNDS, None,
    Fallbacks([PlainAt(Right), PlainAt(Left), PlainAt(Top)]), false, BARE_BOUNDS)

  const BARE_REFERENCE := Rect(10.0, 40.0, 28.0, 20.0, 38.0, 60.0)

  lemma BareRestart(d: Data, placement: Placement)
    ensures Restart(BARE_INSTANCE, d, placement) == Placed(BARE_INSTANCE, d, placement)
  {
    assert FindIndex(BARE_INSTANCE.modifiers, Flip) == 0;
    assert Before(BARE_INSTANCE.modifiers, Flip) == [];
  }

  /**
   * The whole update: on the right the popper leaves the boundary, on the left it stands free, yet
   * `flip` rejects the left by the far edge stored for the right and ends at the top.
   */
  lemma StaleEdgeRejectsFree(previous: Rect)
    ensures var first := FirstData(BARE_INSTANCE, PlainAt(Right), BARE_REFERENCE, previous);
            && RunList(BARE_INSTANCE, BARE_INSTANCE.modifiers, first).placement == PlainAt(Top)
            && !Conflict(BARE_INSTANCE, Normalise(Restart(BARE_INSTANCE, Normalise(first), PlainAt(Left))))
  {
    var inst := BARE_INSTANCE;
    var first := FirstData(inst, PlainAt(Right), BARE_REFERENCE, previous);
    var d := Normalise(first);
    assert d.popper == Rect(38.0, 45.0, 8.0, 10.0, 46.0, 55.0) && d.reference == BARE_REFERENCE;
    assert inst.modifiers == [inst.modifiers[0]];
    RunSingle(inst, inst.modifiers[0], first);
    BareRestart(d, PlainAt(Left));
    BareSearch(d);
  }

  lemma BareSearch(d: Data)
    requires d.popper == Rect(38.0, 45.0, 8.0, 10.0, 46.0, 55.0) && d.reference == BARE_REFERENCE
    requires d.placement == PlainAt(Right) && !d.flipped
    ensures FlipData(BARE_INSTANCE, d).placement == PlainAt(Top)
  {
    var inst := BARE_INSTANCE;
    var order := FlipOrder(inst, Right);
    var a := AttemptAt(inst, d, order, 0, 0);
    BareRestart(d, PlainAt(Left));
    assert AttemptAt(inst, d, order, 0, 1) == Retry(inst, a, order[1]);
    assert !IsEnabled(inst.modifiers, Inner);
    var k := FlipFindsFirst(inst, d, 0);
    assert k == 2;
  }
}
