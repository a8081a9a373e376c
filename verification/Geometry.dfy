/** Rectangles, placements and sides as Popper's `data` object stores them. */
module Geometry {

  datatype Side = Left | Right | Top | Bottom

  datatype Variation = Plain | Start | End

  /**
   * A placement such as `top-start`: the part before the first dash, the part after it, and further
   * parts, which `flip` can produce from a fallback entry that has a variation of its own.
   */
  datatype Placement = Placement(base: Side, variation: Variation, rest: seq<Variation> := []) {
    /** `placement + (v ? '-' + v : '')`. */
    function Append(v: Variation): Placement {
      if v == Plain then this
      else if variation == Plain then this.(variation := v)
      else this.(rest := rest + [v])
    }
  }

  /** The placement called by the side alone. */
  function PlainAt(side: Side): Placement {
    Placement(side, Plain)
  }

  datatype Axis = X | Y {
    function Other(): Axis {
      if this == X then Y else X
    }
  }

  function AxisOf(side: Side): Axis {
    if side == Left || side == Right then X else Y
  }

  /** True of the two sides whose coordinate is the smaller one on their axis. */
  predicate IsNear(side: Side) {
    side == Left || side == Top
  }

  function Opposite(side: Side): Side {
    match side
    case Left => Right
    case Right => Left
    case Top => Bottom
    case Bottom => Top
  }

  function OppositeVariation(variation: Variation): Variation {
    match variation
    case Plain => Plain
    case Start => End
    case End => Start
  }

  /** The axis along which a popper slides beside its reference. */
  function CrossAxis(placement: Placement): Axis {
    AxisOf(placement.base).Other()
  }

  datatype Size = Size(width: real, height: real) {
    function Len(axis: Axis): real {
      if axis == X then width else height
    }
  }

  datatype Bounds = Bounds(left: real, top: real, right: real, bottom: real) {
    function Near(axis: Axis): real {
      if axis == X then left else top
    }

    function Far(axis: Axis): real {
      if axis == X then right else bottom
    }
  }

  /** An offsets object. `right` and `bottom` are stored, so they can be out of date. */
  datatype Rect = Rect(left: real, top: real, width: real, height: real, right: real, bottom: real) {
    function Near(axis: Axis): real {
      if axis == X then left else top
    }

    function Far(axis: Axis): real {
      if axis == X then right else bottom
    }

    function Len(axis: Axis): real {
      if axis == X then width else height
    }

    /** The coordinate called `side`. */
    function Edge(side: Side): real {
      match side
      case Left => left
      case Right => right
      case Top => top
      case Bottom => bottom
    }

    /** Assigns `left` or `top`; the opposite edge keeps its old value. */
    function MoveTo(axis: Axis, value: real): Rect {
      if axis == X then this.(left := value) else this.(top := value)
    }

    /** `right` and `bottom` agree with position and size. */
    predicate Fresh() {
      right == left + width && bottom == top + height
    }

    predicate HasSize(size: Size) {
      width == size.width && height == size.height
    }

    /** The same position and size, whatever the stored far edges. */
    predicate SameBox(other: Rect) {
      left == other.left && top == other.top && width == other.width && height == other.height
    }
  }

  function ClientRect(r: Rect): Rect {
    r.(right := r.left + r.width, bottom := r.top + r.height)
  }

  function FloorOf(x: real): real {
    x.Floor as real
  }

  function Min(x: real, y: real): real {
    if x <= y then x else y
  }

  function Max(x: real, y: real): real {
    if x >= y then x else y
  }

  function Distance(x: real, y: real): real {
    if x >= y then x - y else y - x
  }

  /** `q` is the point of the interval from `lo` to `hi` that lies nearest to `p`. */
  ghost predicate IsNearest(q: real, p: real, lo: real, hi: real) {
    && lo <= q <= hi
    && forall other: real :: lo <= other <= hi ==> Distance(q, p) <= Distance(other, p)
  }

  function Clamp(p: real, lo: real, hi: real): real {
    if p < lo then lo else if p > hi then hi else p
  }

  lemma ClampIsNearest(p: real, lo: real, hi: real)
    requires lo <= hi
    ensures IsNearest(Clamp(p, lo, hi), p, lo, hi)
  {
  }

  /** The nearest point of an interval is unique. */
  lemma NearestIsUnique(q: real, q': real, p: real, lo: real, hi: real)
    requires IsNearest(q, p, lo, hi)
    requires IsNearest(q', p, lo, hi)
    ensures q == q'
  {
    assert Distance(q, p) <= Distance(q', p) <= Distance(q, p);
    assert Distance(q, p) <= Distance((q + q') / 2.0, p);
  }
}
