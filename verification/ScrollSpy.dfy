/** ScrollSpy: which link is active for a scroll position. */
module ScrollSpy {
  import opened Optional

  /** A link's target with the vertical offset measured for it. */
  datatype Item = Item(offset: real, target: string)

  /** `_activeTarget`: null, undefined (the last entry of an empty list), or a selector. */
  datatype Active = Nothing | Undefined | Target(name: string)

  ghost predicate Sorted(items: seq<Item>) {
    forall i, j :: 0 <= i <= j < |items| ==> items[i].offset <= items[j].offset
  }

  function Present(measured: seq<Option<Item>>): seq<Item> {
    if measured == [] then []
    else (if measured[0].Some? then [measured[0].value] else []) + Present(measured[1..])
  }

  // ---------------------------------------------------------------- The simple definition

  /** The number of items whose offset is at most `top`; they come first in a sorted list. */
  function Passed(items: seq<Item>, top: real): (n: nat)
    ensures n <= |items|
  {
    if items == [] then 0 else (if items[0].offset <= top then 1 else 0) + Passed(items[1..], top)
  }

  function LastTarget(items: seq<Item>): Active {
    if items == [] then Undefined else Target(items[|items| - 1].target)
  }

  /** The target that `_process` leaves active. */
  function Expected(items: seq<Item>, active: Active, top: real, maxScroll: real): Active {
    if top >= maxScroll then LastTarget(items)
    else if active.Target? && items != [] && top < items[0].offset && items[0].offset > 0.0 then Nothing
    else
      var n := Passed(items, top);
      if n > 0 then Target(items[n - 1].target) else active
  }

  /** The activations it triggers: the new target, if it is one and differs from the old. */
  function Activations(items: seq<Item>, active: Active, top: real, maxScroll: real): seq<Active> {
    var expected := Expected(items, active, top, maxScroll);
    if expected == active || expected == Nothing then [] else [expected]
  }

  // ---------------------------------------------------------------- The object

  /** The two parallel lists as one. */
  function Zip(offsets: seq<real>, targets: seq<string>): (items: seq<Item>)
    requires |offsets| == |targets|
    ensures |items| == |offsets|
    ensures forall i :: 0 <= i < |items| ==> items[i] == Item(offsets[i], targets[i])
  {
    seq(|offsets|, i requires 0 <= i < |offsets| => Item(offsets[i], targets[i]))
  }

  class Spy {
    const configOffset: real
    var offsets: seq<real>
    var targets: seq<string>
    var activeTarget: Active
    var scrollHeight: real
    /** The activate events triggered so far. */
    var activated: seq<Active>

    ghost predicate Valid()
      reads `offsets, `targets
    {
      |offsets| == |targets| && Sorted(Items())
    }

    ghost function Items(): seq<Item>
      requires |offsets| == |targets|
      reads `offsets, `targets
    {
      Zip(offsets, targets)
    }

    constructor (configOffset: real)
      ensures Valid() && Items() == [] && activeTarget == Nothing && activated == []
    {
      this.configOffset := configOffset;
      offsets, targets, activeTarget, scrollHeight, activated := [], [], Nothing, 0.0, [];
    }

    /** `refresh`: the measured targets that exist, sorted by offset. */
    method Refresh(measured: seq<Option<Item>>, height: real)
      modifies this
      ensures Valid() && multiset(Items()) == multiset(Present(measured))
      ensures forall item: Item :: multiset(Items())[item] == multiset(measured)[Some(item)]
      ensures scrollHeight == height && activeTarget == old(activeTarget) && activated == old(activated)
    {
      var found := Filter(measured);
      var sorted := Sort(found);
      offsets, targets := [], [];
      scrollHeight := height;
      for i := 0 to |sorted|
        invariant |offsets| == |targets| == i
        invariant forall k :: 0 <= k < i ==> offsets[k] == sorted[k].offset && targets[k] == sorted[k].target
        invariant scrollHeight == height && activeTarget == old(activeTarget) && activated == old(activated)
      {
        offsets := offsets + [sorted[i].offset];
        targets := targets + [sorted[i].target];
      }
      assert Items() == sorted;
      forall item: Item
        ensures multiset(Items())[item] == multiset(measured)[Some(item)]
      {
        PresentKeepsAll(measured, item);
      }
    }

    method Activate(target: Active)
      modifies `activeTarget, `activated
      ensures activeTarget == target && activated == old(activated) + [target]
    {
      activeTarget := target;
      activated := activated + [target];
    }

    /** `_process`, given the measurements it takes; `measured` matters if the scroll height has changed. */
    method Process(scroll: real, height: real, visible: real, measured: seq<Option<Item>>)
      requires Valid()
      modifies this
      ensures Valid() && scrollHeight == height
      ensures old(scrollHeight) == height ==> Items() == old(Items())
      ensures old(scrollHeight) != height ==> multiset(Items()) == multiset(Present(measured))
      ensures activeTarget
              == Expected(Items(), old(activeTarget), scroll + configOffset, configOffset + height - visible)
      ensures activated == old(activated)
                + if activeTarget == old(activeTarget) || activeTarget == Nothing then [] else [activeTarget]
    {
      if scrollHeight != height {
        Refresh(measured, height);
      }
      Select(scroll + configOffset, configOffset + height - visible);
    }

    /** The part of `_process` after the possible refresh. */
    method Select(scrollTop: real, maxScroll: real)
      requires Valid()
      modifies `activeTarget, `activated
      ensures activeTarget == Expected(Items(), old(activeTarget), scrollTop, maxScroll)
      ensures activated == old(activated) + Activations(Items(), old(activeTarget), scrollTop, maxScroll)
    {
      if scrollTop >= maxScroll {
        var target := if |targets| > 0 then Target(targets[|targets| - 1]) else Undefined;
        if activeTarget != target {
          Activate(target);
        }
        return;
      }
      if activeTarget.Target? && |offsets| > 0 && scrollTop < offsets[0] && offsets[0] > 0.0 {
        activeTarget := Nothing;
        return;
      }
      SelectPassed(scrollTop);
    }

    /** The loop of `_process`, from the last offset to the first. */
    method SelectPassed(scrollTop: real)
      requires Valid()
      modifies `activeTarget, `activated
      ensures var n := Passed(Items(), scrollTop);
              && activeTarget == (if n > 0 then Target(Items()[n - 1].target) else old(activeTarget))
              && activated == old(activated) + if activeTarget == old(activeTarget) then [] else [activeTarget]
    {
      ghost var items, n := Items(), Passed(Items(), scrollTop);
      PassedSplits(items, scrollTop);
      var i := |offsets|;
      while i > 0
        invariant 0 <= i <= |offsets|
        invariant activeTarget == if i < n then Target(items[n - 1].target) else old(activeTarget)
        invariant activated == old(activated) + if activeTarget == old(activeTarget) then [] else [activeTarget]
      {
        i := i - 1;
        var isActiveTarget :=
          && activeTarget != Target(targets[i])
          && scrollTop >= offsets[i]
          && (i + 1 == |offsets| || scrollTop < offsets[i + 1]);
        assert items[i] == Item(offsets[i], targets[i]);
        if isActiveTarget {
          assert i == n - 1;
          Activate(Target(targets[i]));
        }
      }
    }
  }

  /** Every measured target is kept, as often as it was measured, and nothing else. */
  lemma {:induction false} PresentKeepsAll(measured: seq<Option<Item>>, item: Item)
    ensures multiset(Present(measured))[item] == multiset(measured)[Some(item)]
  {
    if measured != [] {
      PresentKeepsAll(measured[1..], item);
      assert measured == [measured[0]] + measured[1..];
    }
  }

  method Filter(measured: seq<Option<Item>>) returns (found: seq<Item>)
    ensures found == Present(measured)
  {
    found := [];
    for i := 0 to |measured|
      invariant found + Present(measured[i..]) == Present(measured)
    {
      if measured[i].Some? {
        found := found + [measured[i].value];
      }
      assert measured[i..][1..] == measured[i + 1..];
    }
  }

  /** Stands for `Array.prototype.sort`; callers use only that the result is a sorted permutation. */
  method Sort(items: seq<Item>) returns (sorted: seq<Item>)
    ensures Sorted(sorted) && multiset(sorted) == multiset(items)
  {
    sorted := [];
    for i := 0 to |items|
      invariant Sorted(sorted) && multiset(sorted) == multiset(items[..i])
    {
      sorted := Insert(sorted, items[i]);
      assert items[..i + 1] == items[..i] + [items[i]];
    }
    assert items[..|items|] == items;
  }

  method Insert(sorted: seq<Item>, item: Item) returns (longer: seq<Item>)
    requires Sorted(sorted)
    ensures Sorted(longer) && multiset(longer) == multiset(sorted) + multiset{item}
  {
    var k := 0;
    while k < |sorted| && sorted[k].offset <= item.offset
      invariant k <= |sorted|
      invariant forall j :: 0 <= j < k ==> sorted[j].offset <= item.offset
    {
      k := k + 1;
    }
    InsertedIsSorted(sorted, k, item);
    longer := sorted[..k] + [item] + sorted[k..];
  }

  lemma InsertedIsSorted(sorted: seq<Item>, k: nat, item: Item)
    requires Sorted(sorted) && k <= |sorted|
    requires forall j :: 0 <= j < k ==> sorted[j].offset <= item.offset
    requires k < |sorted| ==> item.offset < sorted[k].offset
    ensures Sorted(sorted[..k] + [item] + sorted[k..])
    ensures multiset(sorted[..k] + [item] + sorted[k..]) == multiset(sorted) + multiset{item}
  {
    var longer := sorted[..k] + [item] + sorted[k..];
    forall i, j | 0 <= i <= j < |longer|
      ensures longer[i].offset <= longer[j].offset
    {
      assert i < k ==> longer[i] == sorted[i];
      assert i > k ==> longer[i] == sorted[i - 1];
      assert j > k ==> longer[j] == sorted[j - 1];
      assert k < j ==> sorted[k].offset <= sorted[j - 1].offset;
    }
    InsertedItems(sorted[..k], item, sorted[k..]);
    assert sorted == sorted[..k] + sorted[k..];
  }

  lemma InsertedItems(front: seq<Item>, item: Item, back: seq<Item>)
    ensures multiset(front + [item] + back) == multiset(front + back) + multiset{item}
  {
  }

  // ---------------------------------------------------------------- Theorems

  /** In a sorted list the passed items are a prefix. */
  lemma {:induction false} PassedSplits(items: seq<Item>, top: real)
    requires Sorted(items)
    ensures forall i :: 0 <= i < |items| ==> (items[i].offset <= top <==> i < Passed(items, top))
  {
    if items != [] {
      assert Sorted(items[1..]);
      PassedSplits(items[1..], top);
      forall i | 0 <= i < |items|
        ensures items[i].offset <= top <==> i < Passed(items, top)
      {
        assert items[0].offset <= items[i].offset;
        if i > 0 {
          assert items[1..][i - 1] == items[i];
        }
      }
    }
  }

  /** `target` has an offset at most `top`, and no other item's offset lies between the two. */
  ghost predicate IsLastPassed(items: seq<Item>, target: string, top: real) {
    exists item <- items :: item.target == target && item.offset <= top
      && forall other <- items :: other.offset <= top ==> other.offset <= item.offset
  }

  /**
   * Away from the bottom, whenever some offset has been passed, the active target is one with the
   * greatest passed offset, duplicates included; at the bottom it is one with the greatest offset.
   */
  lemma ActiveIsLastPassed(items: seq<Item>, active: Active, top: real, maxScroll: real)
    requires Sorted(items) && items != []
    requires top >= maxScroll || exists item <- items :: item.offset <= top
    ensures var expected := Expected(items, active, top, maxScroll);
            && expected.Target?
            && if top >= maxScroll then IsLastPassed(items, expected.name, items[|items| - 1].offset)
               else IsLastPassed(items, expected.name, top)
  {
    PassedSplits(items, top);
    var n := Passed(items, top);
    if top >= maxScroll {
      assert items[|items| - 1] in items;
    } else {
      var item :| item in items && item.offset <= top;
      var k :| 0 <= k < |items| && items[k] == item;
      assert k < n && items[0].offset <= items[k].offset;
      assert items[n - 1] in items;
    }
  }

  /** Above a positive first offset nothing is active; above any other, what was active stays. */
  lemma NothingPassed(items: seq<Item>, active: Active, top: real, maxScroll: real)
    requires Sorted(items) && items != [] && top < items[0].offset && top < maxScroll
    ensures Expected(items, active, top, maxScroll) ==
              if active.Target? && items[0].offset > 0.0 then Nothing else active
  {
    PassedSplits(items, top);
    assert Passed(items, top) == 0;
  }

  /** A second `_process` at the same position activates nothing and changes nothing. */
  lemma ProcessIsStable(items: seq<Item>, active: Active, top: real, maxScroll: real)
    requires Sorted(items)
    ensures var expected := Expected(items, active, top, maxScroll);
            && Expected(items, expected, top, maxScroll) == expected
            && Activations(items, expected, top, maxScroll) == []
  {
    PassedSplits(items, top);
    assert items != [] && top < items[0].offset ==> Passed(items, top) == 0;
  }

  /** Scrolling down never makes a target with a smaller offset active. */
  lemma ScrollingDownMovesOn(items: seq<Item>, top: real, lower: real)
    requires Sorted(items) && top <= lower && Passed(items, top) > 0
    ensures Passed(items, top) <= Passed(items, lower)
    ensures items[Passed(items, top) - 1].offset <= items[Passed(items, lower) - 1].offset
  {
    PassedSplits(items, top);
    PassedSplits(items, lower);
    var n := Passed(items, top);
    assert items[n - 1].offset <= top;
  }

  /** The order of items with equal offsets does not change which offset is the active one. */
  lemma OrderOfEqualsIsIrrelevant(items: seq<Item>, other: seq<Item>, top: real)
    requires Sorted(items) && Sorted(other) && multiset(items) == multiset(other)
    requires Passed(items, top) > 0
    ensures Passed(other, top) > 0
    ensures items[Passed(items, top) - 1].offset == other[Passed(other, top) - 1].offset
  {
    PassedSplits(items, top);
    PassedSplits(other, top);
    var x := items[Passed(items, top) - 1];
    assert x in multiset(items);
    assert x in other;
    var k :| 0 <= k < |other| && other[k] == x;
    assert k < Passed(other, top);
    var y := other[Passed(other, top) - 1];
    assert y in multiset(other);
    assert y in items;
    var j :| 0 <= j < |items| && items[j] == y;
    assert j < Passed(items, top);
  }

  /** Without targets nothing becomes active but, at the bottom, the last entry of an empty list. */
  lemma NoTargets(active: Active, top: real, maxScroll: real)
    ensures Expected([], active, top, maxScroll) == if top >= maxScroll then Undefined else active
  {
  }
}
