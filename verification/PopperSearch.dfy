/** `flip` as a search of the fallback list. */
module PopperSearch {
  import opened Geometry
  import opened PopperPipeline
  import opened PopperSpec
  import opened PopperTheorems

  // ---------------------------------------------------------------- flip as a search

  /** An attempt of the search: the data after its restart, and flip's own variable `variation`. */
  datatype Attempt = Attempt(data: Data, variation: Variation)

  predicate ChangesVariation(inst: Instance, a: Attempt) {
    FlipsVariation(inst, a.data.placement.base, a.variation, a.data.popper)
  }

  function NextVariation(inst: Instance, a: Attempt): Variation {
    if ChangesVariation(inst, a) then OppositeVariation(a.variation) else a.variation
  }

  /** The attempt that follows `a` when the search moves on to the entry `step` of the list. */
  function Retry(inst: Instance, a: Attempt, step: Placement): Attempt {
    var variation := NextVariation(inst, a);
    Attempt(Restart(inst, a.data, step.Append(variation)), variation)
  }

  /** The attempt at the `k`-th entry, after giving up those from `start` on one after the other. */
  function AttemptAt(inst: Instance, d: Data, order: seq<Placement>, start: nat, k: nat): Attempt
    requires start <= k < |order|
  {
    if k == start then Attempt(d, d.placement.variation)
    else Retry(inst, AttemptAt(inst, d, order, start, k - 1), order[k])
  }

  /** What the search leaves where it stops: before the last entry the variation can still change. */
  function Accept(inst: Instance, a: Attempt, isLast: bool): Data {
    if !isLast && ChangesVariation(inst, a) then
      Restart(inst, a.data, PlainAt(a.data.placement.base).Append(OppositeVariation(a.variation)))
    else a.data
  }

  /** `start` is the first entry that names the placement by its side alone. */
  ghost predicate StartsAt(order: seq<Placement>, base: Side, start: nat) {
    start < |order| && order[start] == PlainAt(base) && forall j :: 0 <= j < start ==> order[j] != PlainAt(base)
  }

  /** No entry names the side of an earlier one again without a variation. */
  ghost predicate NeverReturns(order: seq<Placement>, start: nat) {
    forall i, j :: start <= i < j < |order| ==> order[j] != PlainAt(order[i].base)
  }

  lemma RetryPlacement(inst: Instance, d: Data, placement: Placement)
    requires !IsEnabled(inst.modifiers, Inner)
    ensures Restart(inst, d, placement).placement == placement
  {
    BeforeFlipKeepsPlacement(inst);
    PlacementIsKept(inst, Before(inst.modifiers, Flip), Placed(inst, d, placement));
  }

  /** The attempt stands at its entry, with the variation appended that the search has reached. */
  lemma {:induction false} AttemptPlacement(inst: Instance, d: Data, order: seq<Placement>, start: nat, k: nat)
    requires start <= k < |order| && order[start] == PlainAt(d.placement.base) && !IsEnabled(inst.modifiers, Inner)
    ensures var a := AttemptAt(inst, d, order, start, k);
            && a.data.placement.base == order[k].base
            && (start < k ==> a.data.placement == order[k].Append(a.variation))
            && (!inst.flipVariations ==> a.variation == d.placement.variation)
  {
    if k > start {
      AttemptPlacement(inst, d, order, start, k - 1);
      var a := AttemptAt(inst, d, order, start, k - 1);
      RetryPlacement(inst, a.data, order[k].Append(NextVariation(inst, a)));
    }
  }

  /** One iteration that finds the local placement, before the last entry. */
  lemma FlipLoopAt(inst: Instance, a: Attempt, order: seq<Placement>, i: nat)
    requires i + 1 < |order|
    ensures FlipLoop(inst, a.data, order, i, order[i], a.variation) ==
              if Conflict(inst, a.data) then
                FlipLoop(inst, Retry(inst, a, order[i + 1]).data, order, i + 1, order[i + 1], NextVariation(inst, a))
              else
                FlipLoop(inst, Accept(inst, a, false), order, i + 1, PlainAt(a.data.placement.base),
                         NextVariation(inst, a))
  {
  }

  /** Entries equal to the local placement are tested again, without effect as long as there is nothing to change. */
  lemma {:induction false} FlipLoopRests(inst: Instance, a: Attempt, order: seq<Placement>, i: nat, local: Placement)
    requires !Conflict(inst, a.data) && !ChangesVariation(inst, a)
    ensures FlipLoop(inst, a.data, order, i, local, a.variation) == a.data
    decreases |order| - i
  {
    if i < |order| {
      FlipLoopRests(inst, a, order, i + 1, local);
      FlipLoopRests(inst, a, order, i + 1, PlainAt(a.data.placement.base));
    }
  }

  lemma {:induction false} FlipLoopSkips(inst: Instance, d: Data, order: seq<Placement>, i: nat, start: nat,
                                         local: Placement, variation: Variation)
    requires i <= start <= |order| && forall j :: i <= j < start ==> order[j] != local
    ensures FlipLoop(inst, d, order, i, local, variation) == FlipLoop(inst, d, order, start, local, variation)
    decreases start - i
  {
    if i < start {
      FlipLoopSkips(inst, d, order, i + 1, start, local, variation);
    }
  }

  // ---------------------------------------------------------------- The search in general

  /** An attempt, with the index of the entry at which the loop tests it. */
  datatype Visit = Visit(at: nat, attempt: Attempt)

  /** The attempt with the other variation at the same side. */
  function Vary(inst: Instance, a: Attempt): Attempt {
    Attempt(Accept(inst, a, false), NextVariation(inst, a))
  }

  /** No entry between the two names the side by itself. */
  ghost predicate NoneNamed(order: seq<Placement>, base: Side, after: nat, before: nat)
    requires before <= |order|
  {
    forall j :: after < j < before ==> order[j] != PlainAt(base)
  }

  /**
   * The visit that comes after `v`: on a conflict the next entry; otherwise, if the variation
   * changes, the next entry that names the same side again.
   */
  ghost predicate Follows(inst: Instance, order: seq<Placement>, v: Visit, w: Visit) {
    && v.at < w.at < |order|
    && if Conflict(inst, v.attempt.data) then w.at == v.at + 1 && w.attempt == Retry(inst, v.attempt, order[w.at])
       else
         && ChangesVariation(inst, v.attempt) && w.attempt == Vary(inst, v.attempt)
         && order[w.at] == PlainAt(v.attempt.data.placement.base)
         && NoneNamed(order, v.attempt.data.placement.base, v.at, w.at)
  }

  ghost predicate IsTrail(inst: Instance, order: seq<Placement>, trail: seq<Visit>) {
    trail != [] && forall j :: 0 < j < |trail| ==> Follows(inst, order, trail[j - 1], trail[j])
  }

  /** Nothing comes after `v`: it is at the last entry, or free of conflict with no reason to be tested again. */
  ghost predicate IsEnd(inst: Instance, order: seq<Placement>, v: Visit) {
    && v.at < |order|
    && (v.at == |order| - 1
        || (&& !Conflict(inst, v.attempt.data)
            && (ChangesVariation(inst, v.attempt) ==> NoneNamed(order, v.attempt.data.placement.base, v.at, |order|))))
  }

  function Last(trail: seq<Visit>): Visit
    requires trail != []
  {
    trail[|trail| - 1]
  }

  lemma Prepend(inst: Instance, order: seq<Placement>, v: Visit, trail: seq<Visit>)
    requires IsTrail(inst, order, trail) && Follows(inst, order, v, trail[0])
    ensures IsTrail(inst, order, [v] + trail) && Last([v] + trail) == Last(trail)
  {
    var all := [v] + trail;
    forall j | 0 < j < |all|
      ensures Follows(inst, order, all[j - 1], all[j])
    {
      if j > 1 {
        assert all[j - 1] == trail[j - 2] && all[j] == trail[j - 1];
      }
    }
  }

  /** The first entry after `at` that names the side, or the length of the list. */
  function NextNamed(order: seq<Placement>, base: Side, at: nat): (m: nat)
    requires at < |order|
    ensures at < m <= |order| && NoneNamed(order, base, at, m)
    ensures m < |order| ==> order[m] == PlainAt(base)
    decreases |order| - at
  {
    if at + 1 == |order| || order[at + 1] == PlainAt(base) then at + 1 else NextNamed(order, base, at + 1)
  }

  /** The loop, standing at an entry that is the local placement, makes the visits of a trail. */
  lemma {:induction false} FlipLoopFollows(inst: Instance, order: seq<Placement>, v: Visit) returns (trail: seq<Visit>)
    requires v.at < |order|
    ensures IsTrail(inst, order, trail) && trail[0] == v && IsEnd(inst, order, Last(trail))
    ensures FlipLoop(inst, v.attempt.data, order, v.at, order[v.at], v.attempt.variation)
         == Accept(inst, Last(trail).attempt, Last(trail).at == |order| - 1)
    decreases |order| - v.at
  {
    var a := v.attempt;
    trail := [v];
    if v.at + 1 == |order| {
      assert FlipLoop(inst, a.data, order, v.at + 1, order[v.at], a.variation) == a.data;
    } else if Conflict(inst, a.data) {
      FlipLoopAt(inst, a, order, v.at);
      trail := FlipLoopFollows(inst, order, Visit(v.at + 1, Retry(inst, a, order[v.at + 1])));
      Prepend(inst, order, v, trail);
      trail := [v] + trail;
    } else if ChangesVariation(inst, a) {
      trail := VariedFollows(inst, order, v);
    } else {
      FlipLoopAt(inst, a, order, v.at);
      FlipLoopRests(inst, a, order, v.at + 1, PlainAt(a.data.placement.base));
    }
  }

  lemma {:induction false} VariedFollows(inst: Instance, order: seq<Placement>, v: Visit) returns (trail: seq<Visit>)
    requires v.at + 1 < |order| && !Conflict(inst, v.attempt.data) && ChangesVariation(inst, v.attempt)
    ensures IsTrail(inst, order, trail) && trail[0] == v && IsEnd(inst, order, Last(trail))
    ensures FlipLoop(inst, v.attempt.data, order, v.at, order[v.at], v.attempt.variation)
         == Accept(inst, Last(trail).attempt, Last(trail).at == |order| - 1)
    decreases |order| - v.at, 0
  {
    var base, varied := v.attempt.data.placement.base, Vary(inst, v.attempt);
    var m := NextNamed(order, base, v.at);
    FlipLoopAt(inst, v.attempt, order, v.at);
    FlipLoopSkips(inst, varied.data, order, v.at + 1, m, PlainAt(base), varied.variation);
    if m == |order| {
      trail := [v];
    } else {
      trail := FlipLoopFollows(inst, order, Visit(m, varied));
      Prepend(inst, order, v, trail);
      trail := [v] + trail;
    }
  }

  /**
   * `flip` for every fallback list, with `flipVariations` on or off: from the first entry that is
   * the current side it makes the visits of a trail and accepts the last of them. On a conflict it
   * moves on to the next entry; a variation that changes without a conflict is tested again only if
   * a later entry names the same side.
   */
  lemma FlipFollowsTrail(inst: Instance, d: Data, start: nat) returns (trail: seq<Visit>)
    requires !FlipIsSkipped(inst, d) && StartsAt(FlipOrder(inst, d.placement.base), d.placement.base, start)
    ensures var order := FlipOrder(inst, d.placement.base);
            && IsTrail(inst, order, trail) && trail[0] == Visit(start, Attempt(d, d.placement.variation))
            && IsEnd(inst, order, Last(trail))
            && FlipData(inst, d) == Accept(inst, Last(trail).attempt, Last(trail).at == |order| - 1)
  {
    var order := FlipOrder(inst, d.placement.base);
    FlipLoopSkips(inst, d, order, 0, start, PlainAt(d.placement.base), d.placement.variation);
    trail := FlipLoopFollows(inst, order, Visit(start, Attempt(d, d.placement.variation)));
  }

  // ---------------------------------------------------------------- Lists that do not return

  /** In a list that does not come back to a side the trail visits one entry after the other, each on a conflict. */
  lemma {:induction false} TrailIsStraight(inst: Instance, d: Data, order: seq<Placement>, start: nat,
                                           trail: seq<Visit>, j: nat)
    requires IsTrail(inst, order, trail) && trail[0] == Visit(start, Attempt(d, d.placement.variation)) && j < |trail|
    requires start < |order| && order[start] == PlainAt(d.placement.base) && !IsEnabled(inst.modifiers, Inner)
    requires inst.flipVariations ==> NeverReturns(order, start)
    ensures start + j < |order| && trail[j] == Visit(start + j, AttemptAt(inst, d, order, start, start + j))
    ensures 0 < j ==> Conflict(inst, AttemptAt(inst, d, order, start, start + j - 1).data)
  {
    if 0 < j {
      TrailIsStraight(inst, d, order, start, trail, j - 1);
      AttemptPlacement(inst, d, order, start, start + j - 1);
      assert Follows(inst, order, trail[j - 1], trail[j]);
    }
  }

  /**
   * `flip` is a search of a fallback list, from the first entry that is the current side: it ends at
   * the first attempt that neither overlaps the reference nor leaves the boundary on its own side, or
   * at the last. This holds of any list without `flipVariations`, and the variation stays; with it,
   * of lists that do not come back to a side, and each time the search moves on, and once more where
   * it stops, the variation changes if the popper leaves the boundary on the side it is aligned with.
   */
  lemma FlipFindsFirst(inst: Instance, d: Data, start: nat) returns (k: nat)
    requires !FlipIsSkipped(inst, d)
    requires StartsAt(FlipOrder(inst, d.placement.base), d.placement.base, start)
    requires inst.flipVariations ==> NeverReturns(FlipOrder(inst, d.placement.base), start)
    ensures var order := FlipOrder(inst, d.placement.base);
            && start <= k < |order|
            && FlipData(inst, d) == Accept(inst, AttemptAt(inst, d, order, start, k), k == |order| - 1)
            && FlipData(inst, d).placement.base == order[k].base
            && (!inst.flipVariations ==>
                  FlipData(inst, d).placement
                  == if k == start then d.placement else order[k].Append(d.placement.variation))
            && (forall j :: start <= j < k ==> Conflict(inst, AttemptAt(inst, d, order, start, j).data))
            && (k == |order| - 1 || !Conflict(inst, AttemptAt(inst, d, order, start, k).data))
  {
    var order := FlipOrder(inst, d.placement.base);
    var trail := FlipFollowsTrail(inst, d, start);
    k := start + |trail| - 1;
    TrailIsStraight(inst, d, order, start, trail, |trail| - 1);
    forall j | start <= j < k
      ensures Conflict(inst, AttemptAt(inst, d, order, start, j).data)
    {
      TrailIsStraight(inst, d, order, start, trail, j + 1 - start);
    }
    AttemptPlacement(inst, d, order, start, k);
    var a := AttemptAt(inst, d, order, start, k);
    if k != |order| - 1 && ChangesVariation(inst, a) {
      RetryPlacement(inst, a.data, PlainAt(a.data.placement.base).Append(OppositeVariation(a.variation)));
    }
  }

  /** A list that does not have the current side, other than as its last entry, changes nothing. */
  lemma FlipNeedsCurrent(inst: Instance, d: Data)
    requires var order := FlipOrder(inst, d.placement.base);
             forall j :: 0 <= j < |order| - 1 ==> order[j] != PlainAt(d.placement.base)
    ensures FlipData(inst, d) == d
  {
    var order, local := FlipOrder(inst, d.placement.base), PlainAt(d.placement.base);
    if !FlipIsSkipped(inst, d) && order != [] {
      var last := |order| - 1;
      FlipLoopSkips(inst, d, order, 0, last, local, d.placement.variation);
      assert FlipLoop(inst, d, order, last, local, d.placement.variation)
          == FlipLoop(inst, d, order, last + 1, local, d.placement.variation);
    }
  }

  /**
   * So the behaviours that walk around the reference never change anything: their lists leave out the
   * current placement.
   */
  lemma WalkingAroundDoesNothing(inst: Instance, d: Data)
    requires inst.behavior == Clockwise || inst.behavior == Counterclockwise
    ensures FlipData(inst, d) == d
  {
    OrderLeavesOut(inst, d.placement.base);
    FlipNeedsCurrent(inst, d);
  }

  lemma OrderLeavesOut(inst: Instance, base: Side)
    requires inst.behavior == Clockwise || inst.behavior == Counterclockwise
    ensures PlainAt(base) !in FlipOrder(inst, base)
  {
    var at := match base case Top => 1 case Right => 4 case Bottom => 7 case Left => 10;
    OnceAmongValid(base, at);
    ClockwiseLeavesOut(VALID_PLACEMENTS, PlainAt(base), inst.behavior == Counterclockwise, at);
  }

  lemma OnceAmongValid(base: Side, at: nat)
    requires at == match base case Top => 1 case Right => 4 case Bottom => 7 case Left => 10
    ensures VALID_PLACEMENTS[at] == PlainAt(base)
    ensures forall j :: 0 <= j < |VALID_PLACEMENTS| && j != at ==> VALID_PLACEMENTS[j] != PlainAt(base)
  {
  }

  lemma ClockwiseLeavesOut(placements: seq<Placement>, placement: Placement, counter: bool, at: nat)
    requires at < |placements| && placements[at] == placement
    requires forall j :: 0 <= j < |placements| && j != at ==> placements[j] != placement
    ensures placement !in ClockwiseOrder(placements, placement, counter)
  {
    assert IndexOf(placements, placement) == at;
  }

  /** The default behaviour: the popper changes to the opposite side if and only if there is a conflict. */
  lemma FlipsIffConflict(inst: Instance, d: Data)
    requires !FlipIsSkipped(inst, d) && !inst.flipVariations && inst.behavior == FlipToOpposite
    ensures FlipData(inst, d) ==
              if Conflict(inst, d) then
                Restart(inst, d, PlainAt(Opposite(d.placement.base)).Append(d.placement.variation))
              else d
    ensures FlipData(inst, d).placement.base == Opposite(d.placement.base) <==> Conflict(inst, d)
  {
    var k := FlipFindsFirst(inst, d, 0);
    var order := FlipOrder(inst, d.placement.base);
    var a := AttemptAt(inst, d, order, 0, 0);
    assert a.data == d;
    if k == 1 {
      assert AttemptAt(inst, d, order, 0, 1) == Retry(inst, a, order[1]);
    }
  }

  // ---------------------------------------------------------------- Each attempt starts from scratch

  ghost predicate SomeEnabled(modifiers: seq<Modifier>) {
    exists i :: 0 <= i < |modifiers| && modifiers[i].enabled
  }

  lemma PlainlyIgnoresHistory(inst: Instance, name: Name, d: Data, e: Data)
    requires name != Flip && SamePosition(d, e)
    ensures SamePosition(Plainly(inst, name, d), Plainly(inst, name, e))
  {
  }

  lemma RunOneIgnoresHistory(inst: Instance, m: Modifier, d: Data, e: Data)
    requires m.name != Flip
    requires d.popper.SameBox(e.popper) && d.reference.SameBox(e.reference) && d.placement == e.placement
    ensures m.enabled ==> SamePosition(RunOne(inst, m, d), RunOne(inst, m, e))
    ensures !m.enabled ==> RunOne(inst, m, d) == d && RunOne(inst, m, e) == e
  {
    assert ClientRect(d.popper) == ClientRect(e.popper);
    assert ClientRect(d.reference) == ClientRect(e.reference);
    PlainlyIgnoresHistory(inst, m.name, Normalise(d), Normalise(e));
  }

  lemma {:induction false} RunListIgnoresHistory(inst: Instance, modifiers: seq<Modifier>, d: Data, e: Data)
    requires !HasFlip(modifiers)
    requires d.popper.SameBox(e.popper) && d.reference.SameBox(e.reference) && d.placement == e.placement
    ensures SomeEnabled(modifiers) || SamePosition(d, e)
            ==> SamePosition(RunList(inst, modifiers, d), RunList(inst, modifiers, e))
    decreases |modifiers|
  {
    if modifiers != [] {
      var m := modifiers[0];
      assert m.name != Flip;
      RunOneIgnoresHistory(inst, m, d, e);
      assert SomeEnabled(modifiers) ==> m.enabled || SomeEnabled(modifiers[1..]) by {
        if SomeEnabled(modifiers) && !m.enabled {
          var i :| 0 <= i < |modifiers| && modifiers[i].enabled;
          assert modifiers[1..][i - 1].enabled;
        }
      }
      RunListIgnoresHistory(inst, modifiers[1..], RunOne(inst, m, d), RunOne(inst, m, e));
    }
  }

  /** A restart depends on the measurements and the placement, not on the attempts before it. */
  lemma RestartIgnoresHistory(inst: Instance, d: Data, e: Data, placement: Placement)
    requires SomeEnabled(Before(inst.modifiers, Flip))
    requires d.reference.Fresh() && e.reference.Fresh() && d.reference.SameBox(e.reference)
    ensures SamePosition(Restart(inst, d, placement), Restart(inst, e, placement))
  {
    BeforeHasNoFlip(inst.modifiers);
    assert d.reference == e.reference;
    RunListIgnoresHistory(inst, Before(inst.modifiers, Flip),
                          Placed(inst, d, placement),
                          Placed(inst, e, placement));
  }

  /** The position computed for an entry from scratch; the variation is kept. */
  function Candidate(inst: Instance, d: Data, step: Placement): Data {
    Restart(inst, d, step.Append(d.placement.variation))
  }

  /** So the `k`-th attempt is the position computed for its placement from scratch. */
  lemma {:induction false} AttemptFromScratch(inst: Instance, d: Data, order: seq<Placement>, start: nat, k: nat)
    requires start < k < |order| && order[start] == PlainAt(d.placement.base)
    requires !IsEnabled(inst.modifiers, Inner) && !inst.flipVariations
    requires SomeEnabled(Before(inst.modifiers, Flip)) && d.reference.Fresh()
    ensures AttemptAt(inst, d, order, start, k).data.reference == d.reference
    ensures SamePosition(AttemptAt(inst, d, order, start, k).data, Candidate(inst, d, order[k]))
    ensures Conflict(inst, AttemptAt(inst, d, order, start, k).data) <==> Conflict(inst, Candidate(inst, d, order[k]))
  {
    var a := AttemptAt(inst, d, order, start, k - 1);
    if k > start + 1 {
      AttemptFromScratch(inst, d, order, start, k - 1);
    }
    AttemptPlacement(inst, d, order, start, k - 1);
    RestartIgnoresHistory(inst, a.data, d, order[k].Append(d.placement.variation));
    RestartReference(inst, d, order[k].Append(d.placement.variation));
  }

  /** The position tested at the `j`-th entry, the first of which is `d` itself. */
  function CandidateAt(inst: Instance, d: Data, order: seq<Placement>, start: nat, j: nat): Data {
    if start < j < |order| then Candidate(inst, d, order[j]) else d
  }

  /**
   * The search in terms of positions computed from scratch: the placement after `flip` is the first
   * in the list, from the current side on, whose own position has no conflict, or the last in the list.
   */
  lemma FlipFindsFirstPlacement(inst: Instance, d: Data, start: nat) returns (k: nat)
    requires !FlipIsSkipped(inst, d) && !inst.flipVariations && d.reference.Fresh()
    requires SomeEnabled(Before(inst.modifiers, Flip))
    requires StartsAt(FlipOrder(inst, d.placement.base), d.placement.base, start)
    ensures var order := FlipOrder(inst, d.placement.base);
            && start <= k < |order|
            && SamePosition(FlipData(inst, d), CandidateAt(inst, d, order, start, k))
            && (forall j :: start <= j < k ==> Conflict(inst, CandidateAt(inst, d, order, start, j)))
            && (k == |order| - 1 || !Conflict(inst, CandidateAt(inst, d, order, start, k)))
  {
    var order := FlipOrder(inst, d.placement.base);
    k := FlipFindsFirst(inst, d, start);
    forall j | start <= j <= k
      ensures SamePosition(AttemptAt(inst, d, order, start, j).data, CandidateAt(inst, d, order, start, j))
      ensures Conflict(inst, AttemptAt(inst, d, order, start, j).data)
              <==> Conflict(inst, CandidateAt(inst, d, order, start, j))
    {
      if start < j {
        AttemptFromScratch(inst, d, order, start, j);
      }
    }
  }

  // ---------------------------------------------------------------- Trails from scratch

  /** The position is the one that its placement alone gives. */
  ghost predicate IsOwnPosition(inst: Instance, d: Data, e: Data) {
    e.reference == d.reference && SamePosition(e, Restart(inst, d, e.placement))
  }

  lemma RestartIsOwnPosition(inst: Instance, d: Data, e: Data, placement: Placement)
    requires SomeEnabled(Before(inst.modifiers, Flip)) && !IsEnabled(inst.modifiers, Inner)
    requires d.reference.Fresh() && e.reference == d.reference
    ensures IsOwnPosition(inst, d, Restart(inst, e, placement))
    ensures Restart(inst, e, placement).placement == placement
  {
    RetryPlacement(inst, e, placement);
    RestartReference(inst, e, placement);
    RestartIgnoresHistory(inst, e, d, placement);
  }

  /** Every visit after the first stands where its placement alone would, at the entry it is tested at. */
  lemma {:induction false} TrailFromScratch(inst: Instance, d: Data, order: seq<Placement>, trail: seq<Visit>, j: nat)
    requires SomeEnabled(Before(inst.modifiers, Flip)) && !IsEnabled(inst.modifiers, Inner) && d.reference.Fresh()
    requires IsTrail(inst, order, trail) && trail[0].attempt.data.reference == d.reference && j < |trail|
    ensures trail[j].attempt.data.reference == d.reference
    ensures 0 < j ==>
              && IsOwnPosition(inst, d, trail[j].attempt.data)
              && trail[j].at < |order|
              && trail[j].attempt.data.placement == order[trail[j].at].Append(trail[j].attempt.variation)
  {
    if 0 < j {
      TrailFromScratch(inst, d, order, trail, j - 1);
      var v, w := trail[j - 1], trail[j];
      assert Follows(inst, order, v, w);
      RestartIsOwnPosition(inst, d, v.attempt.data, order[w.at].Append(w.attempt.variation));
    }
  }
}
