/** `computeAutoPlacement`: the side of the reference with the most room for the popper. */
module PopperAuto {
  import opened Geometry
  import opened Optional

  /** The `placement` option. */
  datatype Wanted = Fixed(placement: Placement) | Auto(variation: Variation)

  function Product(room: Size): real {
    room.width * room.height
  }

  /** The popper fits into `room`. */
  predicate Holds(room: Size, client: Size) {
    room.width >= client.width && room.height >= client.height
  }

  /** The room between reference and boundary on one side. */
  datatype Area = Area(side: Side, room: Size)

  /** `extent` are the `width` and `height` of the boundaries, which padding does not change. */
  function Areas(reference: Rect, bounds: Bounds, extent: Size): seq<Area> {
    [ Area(Top, Size(extent.width, reference.top - bounds.top)),
      Area(Right, Size(bounds.right - reference.right, extent.height)),
      Area(Bottom, Size(extent.width, bounds.bottom - reference.bottom)),
      Area(Left, Size(reference.left - bounds.left, extent.height)) ]
  }

  /** `areas` sorted by size, the largest first; `a` goes behind those of its own size. */
  function Insert(areas: seq<Area>, a: Area): (longer: seq<Area>)
    ensures |longer| == |areas| + 1
  {
    if areas == [] || Product(areas[0].room) < Product(a.room) then [a] + areas
    else [areas[0]] + Insert(areas[1..], a)
  }

  function SortBySize(areas: seq<Area>): (sorted: seq<Area>)
    ensures |sorted| == |areas|
  {
    if areas == [] then [] else Insert(SortBySize(areas[..|areas| - 1]), areas[|areas| - 1])
  }

  function Holding(areas: seq<Area>, client: Size): seq<Area> {
    if areas == [] then []
    else (if Holds(areas[0].room, client) then [areas[0]] else []) + Holding(areas[1..], client)
  }

  function Pick(areas: seq<Area>, client: Size): Area
    requires areas != []
  {
    var sorted := SortBySize(areas);
    var filtered := Holding(sorted, client);
    if |filtered| > 0 then filtered[0] else sorted[0]
  }

  /**
   * The placement that an update starts with. Boundaries taken from the document element have no
   * `width` and `height`: no area can be computed then, the order stays and nothing has room.
   */
  function ComputeAutoPlacement(wanted: Wanted, reference: Rect, bounds: Bounds, extent: Option<Size>,
                                client: Size): Placement
  {
    match wanted
    case Fixed(placement) => placement
    case Auto(variation) =>
      match extent
      case None => Placement(Top, variation)
      case Some(size) => Placement(Pick(Areas(reference, bounds, size), client).side, variation)
  }

  // ---------------------------------------------------------------- The side with the most room

  /** The place of a side among the keys of the areas, which decides between equal ones. */
  function Turn(side: Side): nat {
    match side
    case Top => 0
    case Right => 1
    case Bottom => 2
    case Left => 3
  }

  ghost predicate Precedes(a: Area, b: Area) {
    Product(a.room) > Product(b.room) || (Product(a.room) == Product(b.room) && Turn(a.side) < Turn(b.side))
  }

  ghost predicate Ordered(areas: seq<Area>) {
    forall i, j :: 0 <= i < j < |areas| ==> Precedes(areas[i], areas[j])
  }

  ghost predicate InTurn(areas: seq<Area>) {
    forall i, j :: 0 <= i < j < |areas| ==> Turn(areas[i].side) < Turn(areas[j].side)
  }

  lemma {:induction false} InsertOrders(areas: seq<Area>, a: Area)
    requires Ordered(areas) && forall b <- areas :: Turn(b.side) < Turn(a.side)
    ensures Ordered(Insert(areas, a)) && forall b :: b in Insert(areas, a) <==> b in areas || b == a
  {
    if areas != [] && Product(areas[0].room) >= Product(a.room) {
      InsertOrders(areas[1..], a);
      var rest := Insert(areas[1..], a);
      forall i | 0 <= i < |rest|
        ensures Precedes(areas[0], rest[i])
      {
        assert rest[i] in rest;
      }
    }
  }

  lemma {:induction false} SortOrders(areas: seq<Area>)
    requires InTurn(areas)
    ensures Ordered(SortBySize(areas)) && forall b :: b in SortBySize(areas) <==> b in areas
  {
    if areas != [] {
      var n := |areas| - 1;
      SortOrders(areas[..n]);
      InsertOrders(SortBySize(areas[..n]), areas[n]);
      assert areas == areas[..n] + [areas[n]];
    }
  }

  lemma {:induction false} HoldingKeepsOrder(areas: seq<Area>, client: Size)
    requires Ordered(areas)
    ensures Ordered(Holding(areas, client))
    ensures forall b :: b in Holding(areas, client) <==> b in areas && Holds(b.room, client)
  {
    if areas != [] {
      HoldingKeepsOrder(areas[1..], client);
      var rest := Holding(areas[1..], client);
      forall i | 0 <= i < |rest|
        ensures Precedes(areas[0], rest[i])
      {
        assert rest[i] in rest;
      }
    }
  }

  /** One room is better than another: only it holds the popper, or it is larger; `ties` wins a draw. */
  ghost predicate Beats(room: Size, other: Size, client: Size, ties: bool) {
    if Holds(room, client) != Holds(other, client) then Holds(room, client)
    else if ties then room.width * room.height >= other.width * other.height
    else room.width * room.height > other.width * other.height
  }

  lemma FirstPrecedes(areas: seq<Area>, b: Area)
    requires Ordered(areas) && b in areas
    ensures areas[0] == b || Precedes(areas[0], b)
  {
  }

  lemma PickPrecedes(areas: seq<Area>, client: Size, b: Area)
    requires areas != [] && InTurn(areas) && b in areas
    ensures var a := Pick(areas, client);
            && a in areas
            && (Holds(b.room, client) ==> Holds(a.room, client))
            && (Holds(b.room, client) == Holds(a.room, client) ==> a == b || Precedes(a, b))
  {
    var sorted := SortBySize(areas);
    var filtered := Holding(sorted, client);
    SortOrders(areas);
    HoldingKeepsOrder(sorted, client);
    assert sorted[0] in sorted;
    if |filtered| > 0 {
      assert filtered[0] in filtered;
      if Holds(b.room, client) {
        FirstPrecedes(filtered, b);
      }
    } else {
      FirstPrecedes(sorted, b);
    }
  }

  lemma PickBeats(areas: seq<Area>, client: Size, b: Area)
    requires areas != [] && InTurn(areas) && b in areas
    ensures var a := Pick(areas, client);
            a in areas && (a == b || Beats(a.room, b.room, client, Turn(a.side) < Turn(b.side)))
  {
    PickPrecedes(areas, client, b);
  }

  /** `side` has the best of the four rooms, and the first of them in this order if several are equal. */
  ghost predicate IsBestSide(side: Side, top: Size, right: Size, bottom: Size, left: Size, client: Size) {
    match side
    case Top => Beats(top, right, client, true) && Beats(top, bottom, client, true) && Beats(top, left, client, true)
    case Right =>
      Beats(right, top, client, false) && Beats(right, bottom, client, true) && Beats(right, left, client, true)
    case Bottom =>
      Beats(bottom, top, client, false) && Beats(bottom, right, client, false) && Beats(bottom, left, client, true)
    case Left =>
      Beats(left, top, client, false) && Beats(left, right, client, false) && Beats(left, bottom, client, false)
  }

  lemma FourAreas(top: Size, right: Size, bottom: Size, left: Size, client: Size)
    ensures var areas := [Area(Top, top), Area(Right, right), Area(Bottom, bottom), Area(Left, left)];
            IsBestSide(Pick(areas, client).side, top, right, bottom, left, client)
  {
    var areas := [Area(Top, top), Area(Right, right), Area(Bottom, bottom), Area(Left, left)];
    assert areas[0] in areas && areas[1] in areas && areas[2] in areas && areas[3] in areas;
    PickBeats(areas, client, areas[0]);
    PickBeats(areas, client, areas[1]);
    PickBeats(areas, client, areas[2]);
    PickBeats(areas, client, areas[3]);
  }

  /**
   * An `auto` placement keeps its variation and stands on the side whose room between reference and
   * boundary is the largest that holds the popper, or the largest of all if none does.
   */
  lemma AutoIsLargest(variation: Variation, reference: Rect, bounds: Bounds, extent: Size, client: Size)
    ensures var p := ComputeAutoPlacement(Auto(variation), reference, bounds, Some(extent), client);
            && p == Placement(p.base, variation)
            && IsBestSide(p.base,
                          Size(extent.width, reference.top - bounds.top),
                          Size(bounds.right - reference.right, extent.height),
                          Size(extent.width, bounds.bottom - reference.bottom),
                          Size(reference.left - bounds.left, extent.height),
                          client)
  {
    FourAreas(Size(extent.width, reference.top - bounds.top), Size(bounds.right - reference.right, extent.height),
              Size(extent.width, bounds.bottom - reference.bottom), Size(reference.left - bounds.left, extent.height),
              client);
  }
}
