/** Offset expressions and their meaning: `parseOffset` computes it from every printed expression. */
module OffsetTheorems {
  import opened Geometry
  import opened OffsetParser
  import opened OffsetText
  import opened Optional
  import opened Sequences

  // ---------------------------------------------------------------- Expressions

  type Digit = d: nat | d < 10

  /** A decimal number such as `12`, `12.5` or `.5`. */
  datatype Number = Number(whole: Option<nat>, fraction: seq<Digit>)

  datatype Unit = Bare | Px | Percent | PercentOfReference | PercentOfPopper | ViewHeight | ViewWidth

  /** An operand with the operator in front of it; the first term of an axis has no operator. */
  datatype Term = Term(op: Sign, unary: Option<Sign>, number: Number, suffix: Unit, gaps: Gaps)

  ghost predicate ValidTerm(t: Term) {
    && (t.number.whole.Some? || t.number.fraction != [])
    && Blank(t.gaps.beforeOp) && Blank(t.gaps.afterOp) && Blank(t.gaps.afterUnary)
  }

  ghost predicate ValidTerms(ts: seq<Term>) {
    forall i :: 0 <= i < |ts| ==> ValidTerm(ts[i])
  }

  // ---------------------------------------------------------------- Meaning

  function FractionValue(digits: seq<Digit>): real {
    if digits == [] then 0.0 else (digits[0] as real + FractionValue(digits[1..])) / 10.0
  }

  function NumberValue(n: Number): real {
    (if n.whole.Some? then n.whole.value as real else 0.0) + FractionValue(n.fraction)
  }

  function UnitPixels(u: Unit, m: Measures): real {
    match u
    case Bare => 1.0
    case Px => 1.0
    case Percent => m.reference / 100.0
    case PercentOfReference => m.reference / 100.0
    case PercentOfPopper => m.popper / 100.0
    case ViewHeight => m.viewHeight / 100.0
    case ViewWidth => m.viewWidth / 100.0
  }

  function Signed(s: Sign, x: real): real {
    if s == Plus then x else -x
  }

  function OperandValue(t: Term, m: Measures): real {
    var size := UnitPixels(t.suffix, m) * NumberValue(t.number);
    if t.unary.Some? then Signed(t.unary.value, size) else size
  }

  /** The sum of the terms after the first, each under its operator. */
  function RestValue(ts: seq<Term>, m: Measures): real {
    if ts == [] then 0.0 else Signed(ts[0].op, OperandValue(ts[0], m)) + RestValue(ts[1..], m)
  }

  function AxisValue(ts: seq<Term>, m: Measures): real
    requires ts != []
  {
    OperandValue(ts[0], m) + RestValue(ts[1..], m)
  }

  // ---------------------------------------------------------------- Text

  function DigitChar(d: Digit): (c: char)
    ensures IsDigit(c) && c as int - '0' as int == d
  {
    (d + '0' as int) as char
  }

  function DigitsText(digits: seq<Digit>): (s: string)
    ensures |s| == |digits|
    ensures forall k :: 0 <= k < |s| ==> s[k] == DigitChar(digits[k])
  {
    seq(|digits|, k requires 0 <= k < |digits| => DigitChar(digits[k]))
  }

  function NatText(n: nat): (s: string)
    ensures s != ""
    ensures forall k :: 0 <= k < |s| ==> IsDigit(s[k])
  {
    if n < 10 then [DigitChar(n)] else NatText(n / 10) + [DigitChar(n % 10)]
  }

  function WholeText(n: Number): string {
    if n.whole.Some? then NatText(n.whole.value) else ""
  }

  function UnitText(u: Unit): string {
    match u
    case Bare => ""
    case Px => "px"
    case Percent => "%"
    case PercentOfReference => "%r"
    case PercentOfPopper => "%p"
    case ViewHeight => "vh"
    case ViewWidth => "vw"
  }

  // ---------------------------------------------------------------- Numbers

  lemma {:induction false} NatRoundTrip(n: nat)
    ensures DigitsValue(NatText(n)) == n
  {
    var s := NatText(n);
    if n < 10 {
      assert s[..|s| - 1] == "";
    } else {
      NatRoundTrip(n / 10);
      assert s[..|s| - 1] == NatText(n / 10);
    }
  }

  lemma {:induction false} ScaleDownSum(x: real, y: real, n: nat)
    ensures ScaleDown(x + y, n) == ScaleDown(x, n) + ScaleDown(y, n)
    decreases n
  {
    if n > 0 {
      ScaleDownSum(x / 10.0, y / 10.0, n - 1);
      assert (x + y) / 10.0 == x / 10.0 + y / 10.0;
    }
  }

  lemma {:induction false} ScaleDownOnce(x: real, n: nat)
    ensures ScaleDown(x, n + 1) == ScaleDown(x, n) / 10.0
    decreases n
  {
    if n > 0 {
      ScaleDownOnce(x / 10.0, n - 1);
    }
  }

  lemma {:induction false} FractionAppend(digits: seq<Digit>, d: Digit)
    ensures FractionValue(digits + [d]) == FractionValue(digits) + ScaleDown(d as real, |digits| + 1)
  {
    if digits == [] {
      assert ScaleDown(d as real, 1) == ScaleDown(d as real / 10.0, 0);
    } else {
      assert (digits + [d])[1..] == digits[1..] + [d];
      FractionAppend(digits[1..], d);
      ScaleDownOnce(d as real, |digits|);
    }
  }

  lemma {:induction false} FractionRoundTrip(digits: seq<Digit>)
    ensures ScaleDown(DigitsValue(DigitsText(digits)) as real, |digits|) == FractionValue(digits)
  {
    if digits != [] {
      var n := |digits| - 1;
      var front, d := digits[..n], digits[n];
      assert digits == front + [d];
      FractionAppend(front, d);
      FractionRoundTrip(front);
      var s := DigitsText(digits);
      assert s[..n] == DigitsText(front);
      var v := DigitsValue(DigitsText(front));
      assert DigitsValue(s) == 10 * v + d;
      ScaleDownSum(10.0 * v as real, d as real, n + 1);
      assert ScaleDown(10.0 * v as real, n + 1) == ScaleDown(10.0 * v as real / 10.0, n);
    }
  }

  lemma {:induction false} DigitsEndAfter(a: string, digits: string, b: string)
    requires forall k :: 0 <= k < |digits| ==> IsDigit(digits[k])
    requires b == "" || !IsDigit(b[0])
    ensures DigitsEnd(a + digits + b, |a|) == |a + digits|
    decreases |digits|
  {
    var s := a + digits + b;
    if digits == "" {
      assert s == a + b;
    } else {
      assert s[|a|] == digits[0];
      assert s == (a + [digits[0]]) + digits[1..] + b;
      DigitsEndAfter(a + [digits[0]], digits[1..], b);
    }
  }

  /** The part of `toValue` after the sign and the whole digits. */
  lemma FractionOfParts(front: string, fraction: string, unit: string)
    requires forall k :: 0 <= k < |fraction| ==> IsDigit(fraction[k])
    requires unit == "" || (!IsDigit(unit[0]) && unit[0] != '.')
    ensures var s, n := front + "." + fraction + unit, |front|;
            s[n] == '.' && NumberEnd(s, n) == |front + "." + fraction|
  {
    DigitsEndAfter(front + ".", fraction, unit);
  }

  /** The part of `toValue` up to the whole digits. */
  lemma WholeOfParts(sign: string, whole: string, tail: string)
    requires sign == "" || (|sign| == 1 && IsSign(sign[0]))
    requires forall k :: 0 <= k < |whole| ==> IsDigit(whole[k])
    requires tail == "" || (!IsDigit(tail[0]) && !IsSign(tail[0]))
    ensures var s := sign + whole + tail;
            SignEnd(s) == |sign| && DigitsEnd(s, |sign|) == |sign + whole|
  {
    var s := sign + whole + tail;
    if sign != "" {
      assert s[0] == sign[0];
    } else if whole != "" {
      assert s[0] == whole[0];
    } else {
      assert s == tail;
    }
    DigitsEndAfter(sign, whole, tail);
  }

  /** `toValue` reads back the sign, the digits and the unit of an operand. */
  lemma ScanOfParts(sign: string, whole: string, point: string, fraction: string, unit: string)
    requires sign == "" || (|sign| == 1 && IsSign(sign[0]))
    requires forall k :: 0 <= k < |whole| ==> IsDigit(whole[k])
    requires forall k :: 0 <= k < |fraction| ==> IsDigit(fraction[k])
    requires point == "." || (point == "" && fraction == "")
    requires unit == "" || (!IsDigit(unit[0]) && unit[0] != '.' && !IsSign(unit[0]))
    requires Solid(unit)
    ensures Scan(sign + whole + (point + fraction + unit)) == Scanned(sign == "-", whole, fraction, unit)
  {
    if point == "." {
      ScanWithPoint(sign, whole, fraction, unit);
    } else {
      assert point + fraction + unit == unit;
      ScanWithoutPoint(sign, whole, unit);
    }
  }

  lemma ScanWithoutPoint(sign: string, whole: string, unit: string)
    requires sign == "" || (|sign| == 1 && IsSign(sign[0]))
    requires forall k :: 0 <= k < |whole| ==> IsDigit(whole[k])
    requires unit == "" || (!IsDigit(unit[0]) && unit[0] != '.' && !IsSign(unit[0]))
    requires Solid(unit)
    ensures Scan(sign + whole + unit) == Scanned(sign == "-", whole, "", unit)
  {
    var s, n := sign + whole + unit, |sign + whole|;
    WholeOfParts(sign, whole, unit);
    assert NumberEnd(s, n) == n by {
      assert n < |s| ==> s[n] == unit[0];
    }
    UnitEndsLine(sign + whole, unit);
    ScanOfEnds(s, |sign|, n, n);
    CapturesOfParts(sign, whole, "", "", unit);
  }

  lemma ScanWithPoint(sign: string, whole: string, fraction: string, unit: string)
    requires sign == "" || (|sign| == 1 && IsSign(sign[0]))
    requires forall k :: 0 <= k < |whole| ==> IsDigit(whole[k])
    requires forall k :: 0 <= k < |fraction| ==> IsDigit(fraction[k])
    requires unit == "" || (!IsDigit(unit[0]) && unit[0] != '.' && !IsSign(unit[0]))
    requires Solid(unit)
    ensures Scan(sign + whole + ("." + fraction + unit)) == Scanned(sign == "-", whole, fraction, unit)
  {
    var tail := "." + fraction + unit;
    var s := sign + whole + tail;
    assert tail[0] == '.';
    PointEndsNumber(tail);
    WholeOfParts(sign, whole, tail);
    GroupLastThree(sign + whole, ".", fraction, unit);
    FractionOfParts(sign + whole, fraction, unit);
    UnitEndsLine(sign + whole + "." + fraction, unit);
    ScanOfEnds(s, |sign|, |sign + whole|, |sign + whole + "." + fraction|);
    CapturesOfParts(sign, whole, ".", fraction, unit);
  }

  lemma ScanOfEnds(s: string, start: nat, wholeEnd: nat, end: nat)
    requires start == SignEnd(s) && start <= |s| && wholeEnd == DigitsEnd(s, start) && end == NumberEnd(s, wholeEnd)
    requires LineEnd(s, end) == |s|
    ensures Scan(s) == Captures(s, start, wholeEnd, end, |s|)
  {
  }

  lemma CapturesOfParts(sign: string, whole: string, point: string, fraction: string, unit: string)
    requires sign == "" || (|sign| == 1 && IsSign(sign[0]))
    requires point == "." || (point == "" && fraction == "")
    ensures var s := sign + whole + (point + fraction + unit);
            Captures(s, |sign|, |sign + whole|, |sign + whole + point + fraction|, |s|)
            == Scanned(sign == "-", whole, fraction, unit)
  {
    var s := sign + whole + (point + fraction + unit);
    assert sign != "" ==> s[0] == sign[0];
    assert s[|sign|..|sign + whole|] == whole;
    assert s[|sign + whole + point|..|sign + whole + point + fraction|] == fraction;
    assert s[|sign + whole + point + fraction|..|s|] == unit;
  }

  lemma {:induction false} UnitEndsLine(front: string, unit: string)
    requires Solid(unit)
    ensures LineEnd(front + unit, |front|) == |front + unit|
    decreases |unit|
  {
    if unit == "" {
      assert front + unit == front;
    } else {
      assert (front + unit)[|front|] == unit[0] && !IsSeparator(unit[0]);
      assert front + unit == (front + [unit[0]]) + unit[1..];
      UnitEndsLine(front + [unit[0]], unit[1..]);
    }
  }

  lemma PointEndsNumber(tail: string)
    requires tail != "" && tail[0] == '.'
    ensures !IsDigit(tail[0]) && !IsSign(tail[0])
  {
  }

  lemma ScaleOfUnit(u: Unit, m: Measures)
    ensures Scale(UnitText(u), m) == UnitPixels(u, m)
  {
  }

  lemma UnitTextIsSolid(u: Unit)
    ensures Solid(UnitText(u))
    ensures UnitText(u) == "" || (!IsDigit(UnitText(u)[0]) && UnitText(u)[0] != '.' && !IsSign(UnitText(u)[0]))
  {
  }

  function FractionText(digits: seq<Digit>): string {
    if digits == [] then "" else "." + DigitsText(digits)
  }

  function Body(t: Term): string {
    WholeText(t.number) + FractionText(t.number.fraction) + UnitText(t.suffix)
  }

  function ItemOf(t: Term): Item {
    Item(t.op, t.unary, Body(t), t.gaps)
  }

  function ItemsOf(ts: seq<Term>): (items: seq<Item>)
    ensures |items| == |ts|
    ensures forall i :: 0 <= i < |ts| ==> items[i] == ItemOf(ts[i])
  {
    seq(|ts|, i requires 0 <= i < |ts| => ItemOf(ts[i]))
  }

  lemma ItemIsValid(t: Term)
    requires ValidTerm(t)
    ensures ValidItem(ItemOf(t))
  {
    var whole, fraction, unit := WholeText(t.number), FractionText(t.number.fraction), UnitText(t.suffix);
    UnitTextIsSolid(t.suffix);
    assert Solid(whole) && Solid(fraction);
    SolidConcat(whole, fraction);
    SolidConcat(whole + fraction, unit);
  }

  lemma SolidConcat(a: string, b: string)
    requires Solid(a) && Solid(b)
    ensures Solid(a + b)
  {
  }

  lemma {:induction false} ItemsAreValid(ts: seq<Term>)
    requires ValidTerms(ts)
    ensures ValidItems(ItemsOf(ts))
  {
    forall i | 0 <= i < |ts|
      ensures ValidItem(ItemsOf(ts)[i])
    {
      ItemIsValid(ts[i]);
    }
  }

  lemma ScanOfOperand(t: Term)
    requires ValidTerm(t)
    ensures Scan(Operand(ItemOf(t)))
         == Scanned(t.unary == Some(Minus), WholeText(t.number), DigitsText(t.number.fraction), UnitText(t.suffix))
  {
    var sign := if t.unary.Some? then SignText(t.unary.value) else "";
    var digits := t.number.fraction;
    var point, fraction := if digits == [] then "" else ".", DigitsText(digits);
    assert FractionText(digits) == point + fraction;
    assert sign == "-" <==> t.unary == Some(Minus);
    assert Operand(ItemOf(t)) == sign + (WholeText(t.number) + (point + fraction) + UnitText(t.suffix));
    GroupLastTwo(sign, WholeText(t.number), point + fraction, UnitText(t.suffix));
    UnitTextIsSolid(t.suffix);
    ScanOfParts(sign, WholeText(t.number), point, fraction, UnitText(t.suffix));
  }

  /** What `toValue` makes of a term: its signed number of pixels, or, for zero, some text. */
  ghost predicate Denotes(value: Value, t: Term, m: Measures) {
    match value
    case Pixels(amount) => amount == OperandValue(t, m)
    case Text(text) => OperandValue(t, m) == 0.0 && TextNumber(text) == 0.0
  }

  /** Behind a zero at the start comes no letter that makes it a literal with a radix. */
  lemma NoLiteral(whole: string, behind: string)
    requires forall k :: 0 <= k < |whole| ==> IsDigit(whole[k])
    requires whole == "" ==> behind == "" || behind[0] == '.'
    requires behind != "" ==> RadixOf(behind[0]) == 0
    ensures TextNumber(whole + behind) == 0.0
  {
    var s := whole + behind;
    if |whole| >= 2 {
      assert s[1] == whole[1] && IsDigit(whole[1]);
    } else if |whole| == 1 {
      assert |s| > 1 ==> s[1] == behind[0];
    }
  }

  lemma SignIsNoLiteral(sign: Sign, rest: string)
    ensures TextNumber(SignText(sign) + rest) == 0.0
  {
    assert (SignText(sign) + rest)[0] == SignText(sign)[0];
  }

  lemma UnitIsNoRadix(u: Unit)
    ensures UnitText(u) != "" ==> RadixOf(UnitText(u)[0]) == 0
  {
  }

  /** A printed operand is no literal with a radix. */
  lemma OperandIsNoLiteral(t: Term)
    requires ValidTerm(t)
    ensures TextNumber(Operand(ItemOf(t))) == 0.0
  {
    if t.unary.Some? {
      SignIsNoLiteral(t.unary.value, Body(t));
    } else {
      PlainOperand(t);
      BehindWhole(t);
      NoLiteral(WholeText(t.number), FractionText(t.number.fraction) + UnitText(t.suffix));
    }
  }

  lemma PlainOperand(t: Term)
    requires t.unary.None?
    ensures Operand(ItemOf(t)) == WholeText(t.number) + (FractionText(t.number.fraction) + UnitText(t.suffix))
  {
    assert "" + Body(t) == Body(t);
  }

  lemma BehindWhole(t: Term)
    requires ValidTerm(t)
    ensures var behind := FractionText(t.number.fraction) + UnitText(t.suffix);
            && (WholeText(t.number) == "" ==> behind == "" || behind[0] == '.')
            && (behind != "" ==> RadixOf(behind[0]) == 0)
  {
    var fraction, unit := FractionText(t.number.fraction), UnitText(t.suffix);
    UnitIsNoRadix(t.suffix);
    if fraction != "" {
      assert (fraction + unit)[0] == fraction[0] == '.';
    } else {
      assert fraction + unit == unit;
    }
  }

  lemma ConvertDenotes(s: string, t: Term, m: Measures)
    requires TextNumber(s) == 0.0
    ensures Denotes(Convert(s, NumberValue(t.number), t.unary == Some(Minus), UnitPixels(t.suffix, m)), t, m)
  {
    var size, scale := NumberValue(t.number), UnitPixels(t.suffix, m);
    assert scale * -size == -(scale * size);
    if size == 0.0 {
      assert scale * size == 0.0;
    }
  }

  lemma OperandRoundTrip(t: Term, m: Measures)
    requires ValidTerm(t)
    ensures Denotes(ToValue(Operand(ItemOf(t)), m), t, m)
  {
    var s := Operand(ItemOf(t));
    calc {
      ToValue(s, m);
      { ScanOfOperand(t); }
      Convert(s, Magnitude(WholeText(t.number), DigitsText(t.number.fraction)), t.unary == Some(Minus),
              Scale(UnitText(t.suffix), m));
      { SizeRoundTrip(t.number); ScaleOfUnit(t.suffix, m); }
      Convert(s, NumberValue(t.number), t.unary == Some(Minus), UnitPixels(t.suffix, m));
    }
    OperandIsNoLiteral(t);
    ConvertDenotes(s, t, m);
  }

  lemma SizeRoundTrip(n: Number)
    ensures Magnitude(WholeText(n), DigitsText(n.fraction)) == NumberValue(n)
  {
    if n.whole.Some? {
      NatRoundTrip(n.whole.value);
    }
    FractionRoundTrip(n.fraction);
  }

  // ---------------------------------------------------------------- Sums

  lemma OperatorIsText(s: Sign, m: Measures)
    ensures ToValue(SignText(s), m) == Text(SignText(s))
  {
    var t := SignText(s);
    assert t[1..1] == "";
  }

  /** `values` from index `k` on are the values of the operators and operands of `ts`. */
  ghost predicate RestDenotes(values: seq<Value>, k: nat, ts: seq<Term>, m: Measures)
    decreases |ts|
  {
    if ts == [] then k == |values|
    else
      && k + 1 < |values|
      && values[k] == Text(SignText(ts[0].op))
      && Denotes(values[k + 1], ts[0], m)
      && RestDenotes(values, k + 2, ts[1..], m)
  }

  lemma {:induction false} TotalOfRest(values: seq<Value>, k: nat, ts: seq<Term>, m: Measures)
    requires 1 <= k <= |values| && RestDenotes(values, k, ts, m)
    ensures Total(values, |values|) == Total(values, k) + RestValue(ts, m)
    decreases |ts|
  {
    if ts != [] {
      TotalOfTerm(values, k, ts[0], m);
      TotalOfRest(values, k + 2, ts[1..], m);
    }
  }

  /** A term after the first adds its operator, which counts nothing, and its signed value. */
  lemma TotalOfTerm(values: seq<Value>, k: nat, t: Term, m: Measures)
    requires 1 <= k && k + 1 < |values|
    requires values[k] == Text(SignText(t.op)) && Denotes(values[k + 1], t, m)
    ensures Total(values, k + 2) == Total(values, k) + Signed(t.op, OperandValue(t, m))
  {
    assert Total(values, k + 2) == Total(values, k) + Contribution(values, k) + Contribution(values, k + 1);
    assert SignText(t.op) == "-" <==> t.op == Minus;
  }

  lemma {:induction false} RestOperandsDenote(operands: seq<string>, k: nat, ts: seq<Term>, m: Measures)
    requires k <= |operands| && operands[k..] == RestOperands(ItemsOf(ts)) && ValidTerms(ts)
    ensures RestDenotes(ToValues(operands, m), k, ts, m)
    decreases |ts|
  {
    if ts != [] {
      ItemsTail(ts);
      RestOperandsStep(operands, k, ItemsOf(ts));
      OperatorIsText(ts[0].op, m);
      OperandRoundTrip(ts[0], m);
      RestOperandsDenote(operands, k + 2, ts[1..], m);
    }
  }

  lemma RestOperandsStep(operands: seq<string>, k: nat, items: seq<Item>)
    requires k <= |operands| && items != [] && operands[k..] == RestOperands(items)
    ensures k + 1 < |operands|
    ensures operands[k] == SignText(items[0].op) && operands[k + 1] == Operand(items[0])
    ensures operands[k + 2..] == RestOperands(items[1..])
  {
    var rest := operands[k..];
    assert operands[k] == rest[0] && operands[k + 1] == rest[1] && operands[k + 2..] == rest[2..];
  }

  lemma {:induction false} AxisTotalIsValue(ts: seq<Term>, m: Measures)
    requires ts != [] && ValidTerms(ts)
    ensures AxisTotal(FragmentsOf(ItemsOf(ts)), m) == AxisValue(ts, m)
  {
    var items := ItemsOf(ts);
    ItemsAreValid(ts);
    ItemsTail(ts);
    MergeAxis(items);
    var operands := [Operand(items[0])] + RestOperands(items[1..]);
    assert operands[1..] == RestOperands(items[1..]);
    RestOperandsDenote(operands, 1, ts[1..], m);
    OperandRoundTrip(ts[0], m);
    TotalOfAxis(ToValues(operands, m), ts, m);
  }

  lemma TotalOfAxis(values: seq<Value>, ts: seq<Term>, m: Measures)
    requires ts != [] && values != [] && Denotes(values[0], ts[0], m) && RestDenotes(values, 1, ts[1..], m)
    ensures Total(values, |values|) == AxisValue(ts, m)
  {
    TotalOfRest(values, 1, ts[1..], m);
    assert Total(values, 1) == Total(values, 0) + Contribution(values, 0);
  }

  /** The white space that `trim` removes: that of ASCII and of Unicode. */
  lemma WhiteSpace(c: char)
    ensures IsBlank(c) <==>
              c in ['\U{09}', '\U{0A}', '\U{0B}', '\U{0C}', '\U{0D}', '\U{20}', '\U{A0}', '\U{1680}',
                    '\U{2000}', '\U{2001}', '\U{2002}', '\U{2003}', '\U{2004}', '\U{2005}', '\U{2006}', '\U{2007}',
                    '\U{2008}', '\U{2009}', '\U{200A}', '\U{2028}', '\U{2029}', '\U{202F}', '\U{205F}', '\U{3000}',
                    '\U{FEFF}']
  {
  }

  // ---------------------------------------------------------------- Main results

  function Print(xs: seq<Term>, tail: string): string
    requires xs != []
  {
    AxisText(ItemsOf(xs)) + tail
  }

  function PrintPair(xs: seq<Term>, d: Between, ys: seq<Term>, tail: string): string
    requires xs != [] && ys != []
  {
    PairText(ItemsOf(xs), d, ItemsOf(ys), tail)
  }

  /**
   * A single expression: its value is the first offset, the second is zero. Percentages are of the
   * heights if the popper is to the left or right of the reference, otherwise of the widths.
   */
  lemma SingleOffset(xs: seq<Term>, tail: string, popper: Rect, reference: Rect, view: Size, base: Side)
    requires xs != [] && ValidTerms(xs) && Blank(tail)
    ensures Offsets(Print(xs, tail), popper, reference, view, base) ==
              if base == Left || base == Right then
                (AxisValue(xs, Measures(popper.height, reference.height, view.height, view.width)), 0.0)
              else
                (AxisValue(xs, Measures(popper.width, reference.width, view.height, view.width)), 0.0)
  {
    ItemsAreValid(xs);
    SingleAxisFragments(ItemsOf(xs), tail);
    AxisTotalIsValue(xs, MeasuresOf(popper, reference, view, base == Right || base == Left));
  }

  /**
   * Two expressions: each has its own value, the first measured along the side the popper slides on
   * and the second along the other. White space alone separates them only if no unary sign follows.
   */
  lemma PairOfOffsets(xs: seq<Term>, d: Between, ys: seq<Term>, tail: string,
                      popper: Rect, reference: Rect, view: Size, base: Side)
    requires xs != [] && ValidTerms(xs) && ys != [] && ValidTerms(ys) && ValidBetween(d) && Blank(tail)
    requires d.Space? ==> ys[0].unary.None?
    ensures var heights := Measures(popper.height, reference.height, view.height, view.width);
            var widths := Measures(popper.width, reference.width, view.height, view.width);
            Offsets(PrintPair(xs, d, ys, tail), popper, reference, view, base) ==
              if base == Left || base == Right then (AxisValue(xs, heights), AxisValue(ys, widths))
              else (AxisValue(xs, widths), AxisValue(ys, heights))
  {
    ItemsAreValid(xs);
    ItemsAreValid(ys);
    PairAxisFragments(ItemsOf(xs), d, ItemsOf(ys), tail);
    AxisTotalIsValue(xs, MeasuresOf(popper, reference, view, base == Right || base == Left));
    AxisTotalIsValue(ys, MeasuresOf(popper, reference, view, !(base == Right || base == Left)));
  }

  /** The first term of `ys`, its unary sign become an operator behind `gap`. */
  function Joined(gap: string, y: Term): Term
    requires y.unary.Some?
  {
    y.(op := y.unary.value, unary := None, gaps := Gaps(gap + y.gaps.afterOp, y.gaps.afterUnary, ""))
  }

  /** `xs`, then `ys` with the unary sign of its first term for an operator. */
  function Join(xs: seq<Term>, gap: string, ys: seq<Term>): seq<Term>
    requires ys != [] && ys[0].unary.Some?
  {
    xs + ([Joined(gap, ys[0])] + ys[1..])
  }

  /**
   * White space before a signed second offset does not divide: `'10 -5'` is read as the one
   * expression ten minus five, and so is every other pair of that shape.
   */
  lemma {:induction false} SpaceBeforeSignIsAnOperator(xs: seq<Term>, gap: string, ys: seq<Term>, tail: string,
                                    popper: Rect, reference: Rect, view: Size, base: Side)
    requires xs != [] && ValidTerms(xs) && ys != [] && ValidTerms(ys) && Blank(gap) && gap != "" && Blank(tail)
    requires ys[0].unary.Some?
    ensures Offsets(PrintPair(xs, Space(gap), ys, tail), popper, reference, view, base)
         == (AxisValue(Join(xs, gap, ys), MeasuresOf(popper, reference, view, AxisOf(base) == X)), 0.0)
  {
    JoinedIsValid(xs, gap, ys);
    JoinedPair(xs, gap, ys, tail);
    SingleOffset(Join(xs, gap, ys), tail, popper, reference, view, base);
  }

  lemma JoinedIsValid(xs: seq<Term>, gap: string, ys: seq<Term>)
    requires xs != [] && ValidTerms(xs) && ys != [] && ValidTerms(ys) && Blank(gap) && ys[0].unary.Some?
    ensures ValidTerms(Join(xs, gap, ys))
  {
    assert ValidTerm(ys[0]);
    assert ValidTerm(Joined(gap, ys[0]));
  }

  /** The joined expression is worth the sum of the two. */
  lemma JoinedValue(xs: seq<Term>, gap: string, ys: seq<Term>, m: Measures)
    requires xs != [] && ys != [] && ys[0].unary.Some?
    ensures AxisValue(Join(xs, gap, ys), m) == AxisValue(xs, m) + AxisValue(ys, m)
  {
    var y, rest := ys[0], [Joined(gap, ys[0])] + ys[1..];
    assert rest[0] == Joined(gap, y) && rest[1..] == ys[1..];
    assert (xs + rest)[1..] == xs[1..] + rest && (xs + rest)[0] == xs[0];
    calc {
      AxisValue(xs + rest, m);
      OperandValue(xs[0], m) + RestValue(xs[1..] + rest, m);
      { RestValueAppend(xs[1..], rest, m); }
      AxisValue(xs, m) + RestValue(rest, m);
      AxisValue(xs, m) + (Signed(rest[0].op, OperandValue(rest[0], m)) + RestValue(ys[1..], m));
      { JoinedOperand(gap, y, m); }
      AxisValue(xs, m) + AxisValue(ys, m);
    }
  }

  /**
   * So a pair separated by white space alone is read as its two values if and only if no unary sign
   * stands in front of the second, or the second is zero however it is measured.
   */
  lemma SpaceDividesIff(xs: seq<Term>, gap: string, ys: seq<Term>, tail: string,
                        popper: Rect, reference: Rect, view: Size, base: Side)
    requires xs != [] && ValidTerms(xs) && ys != [] && ValidTerms(ys) && Blank(gap) && gap != "" && Blank(tail)
    ensures var mx := MeasuresOf(popper, reference, view, AxisOf(base) == X);
            var my := MeasuresOf(popper, reference, view, AxisOf(base) == Y);
            Offsets(PrintPair(xs, Space(gap), ys, tail), popper, reference, view, base)
              == (AxisValue(xs, mx), AxisValue(ys, my))
            <==> ys[0].unary.None? || (AxisValue(ys, mx) == 0.0 && AxisValue(ys, my) == 0.0)
  {
    var mx := MeasuresOf(popper, reference, view, AxisOf(base) == X);
    if ys[0].unary.None? {
      PairOfOffsets(xs, Space(gap), ys, tail, popper, reference, view, base);
    } else {
      SpaceBeforeSignIsAnOperator(xs, gap, ys, tail, popper, reference, view, base);
      JoinedValue(xs, gap, ys, mx);
    }
  }

  /** `n` pixels, without a unit. */
  function Pixel(unary: Option<Sign>, n: nat): Term {
    Term(Plus, unary, Number(Some(n), []), Bare, Gaps("", "", ""))
  }

  /** The text `10 -5` gives five and zero, not ten and minus five. */
  lemma TenMinusFive(popper: Rect, reference: Rect, view: Size, base: Side)
    ensures Offsets("10 -5", popper, reference, view, base) == (5.0, 0.0)
  {
    var xs, ys := [Pixel(None, 10)], [Pixel(Some(Minus), 5)];
    var m := MeasuresOf(popper, reference, view, AxisOf(base) == X);
    TextOfTenMinusFive();
    SpaceBeforeSignIsAnOperator(xs, " ", ys, "", popper, reference, view, base);
    JoinedValue(xs, " ", ys, m);
    ValueOfPixel(None, 10, m);
    ValueOfPixel(Some(Minus), 5, m);
  }

  lemma TextOfTenMinusFive()
    ensures PrintPair([Pixel(None, 10)], Space(" "), [Pixel(Some(Minus), 5)], "") == "10 -5"
  {
    TextOfPixel(None, 10, "10");
    TextOfPixel(Some(Minus), 5, "5");
  }

  lemma TextOfPixel(unary: Option<Sign>, n: nat, digits: string)
    requires NatText(n) == digits
    ensures AxisText(ItemsOf([Pixel(unary, n)])) == (if unary.Some? then SignText(unary.value) else "") + digits
  {
    assert Body(Pixel(unary, n)) == digits;
    assert ItemsOf([Pixel(unary, n)])[1..] == [];
  }

  lemma ValueOfPixel(unary: Option<Sign>, n: nat, m: Measures)
    ensures AxisValue([Pixel(unary, n)], m) == if unary == Some(Minus) then -(n as real) else n as real
  {
    assert [Pixel(unary, n)][1..] == [];
  }

  /** `n` with a unit. */
  function Amount(n: nat, suffix: Unit): Term {
    Term(Plus, None, Number(Some(n), []), suffix, Gaps("", "", ""))
  }

  /** A number with a unit counts that many of what the unit is worth. */
  lemma AmountIsRead(n: nat, suffix: Unit, text: string, popper: Rect, reference: Rect, view: Size, base: Side)
    requires UnitText(suffix) == text
    ensures var m := if base == Left || base == Right
                     then Measures(popper.height, reference.height, view.height, view.width)
                     else Measures(popper.width, reference.width, view.height, view.width);
            Offsets(NatText(n) + text, popper, reference, view, base) == (UnitPixels(suffix, m) * n as real, 0.0)
  {
    TextOfAmount(n, suffix);
    SingleOffset([Amount(n, suffix)], "", popper, reference, view, base);
    ValueOfAmount(n, suffix, popper, reference, view, base);
  }

  lemma TextOfAmount(n: nat, suffix: Unit)
    ensures ValidTerms([Amount(n, suffix)])
    ensures Print([Amount(n, suffix)], "") == NatText(n) + UnitText(suffix)
  {
    assert ValidTerm(Amount(n, suffix));
    assert Body(Amount(n, suffix)) == NatText(n) + UnitText(suffix);
    assert ItemsOf([Amount(n, suffix)])[1..] == [];
  }

  lemma ValueOfAmount(n: nat, suffix: Unit, popper: Rect, reference: Rect, view: Size, base: Side)
    ensures var m := if base == Left || base == Right
                     then Measures(popper.height, reference.height, view.height, view.width)
                     else Measures(popper.width, reference.width, view.height, view.width);
            AxisValue([Amount(n, suffix)], m) == UnitPixels(suffix, m) * n as real
  {
    assert [Amount(n, suffix)][1..] == [];
  }

  lemma UnitsAreWritten()
    ensures UnitText(Bare) == "" && UnitText(Px) == "px"
    ensures UnitText(ViewHeight) == "vh" && UnitText(ViewWidth) == "vw"
    ensures UnitText(Percent) == "%" && UnitText(PercentOfReference) == "%r" && UnitText(PercentOfPopper) == "%p"
  {
  }

  /** What each unit is worth: pixels, and hundredths of the viewport, the popper or the reference. */
  lemma UnitIsWorth(suffix: Unit, popper: Rect, reference: Rect, view: Size, beside: bool)
    ensures UnitPixels(suffix, if beside then Measures(popper.height, reference.height, view.height, view.width)
                               else Measures(popper.width, reference.width, view.height, view.width)) ==
              match suffix
              case Bare => 1.0
              case Px => 1.0
              case ViewHeight => view.height / 100.0
              case ViewWidth => view.width / 100.0
              case Percent => (if beside then reference.height else reference.width) / 100.0
              case PercentOfReference => (if beside then reference.height else reference.width) / 100.0
              case PercentOfPopper => (if beside then popper.height else popper.width) / 100.0
  {
  }

  lemma LiteralIsSolid(letter: char, digits: string)
    requires RadixOf(letter) > 0 && forall c <- digits :: DigitOf(c) < RadixOf(letter)
    ensures Solid(['0', letter] + digits)
  {
    var s := ['0', letter] + digits;
    forall k | 0 <= k < |s|
      ensures !IsSign(s[k]) && !IsSeparator(s[k])
    {
      if k >= 2 {
        assert s[k] == digits[k - 2] && digits[k - 2] in digits;
      }
    }
  }

  lemma LiteralIsText(letter: char, digits: string, m: Measures)
    requires RadixOf(letter) > 0 && forall c <- digits :: DigitOf(c) < RadixOf(letter)
    ensures ToValue(['0', letter] + digits, m) == Text(['0', letter] + digits)
  {
    var s, tail := ['0', letter] + digits, [letter] + digits;
    assert s == "" + "0" + tail;
    WholeOfParts("", "0", tail);
    assert s[1] == letter;
    assert s[0..1] == "0";
    assert DigitsValue("0") == 0 by {
      assert "0"[..0] == "";
    }
  }

  lemma SolidIsOneFragment(s: string, m: Measures)
    requires s != "" && Solid(s)
    ensures AxisFragments(Fragments(s)) == ([s], [])
    ensures AxisTotal([s], m) == NumberOf(ToValue(s, m))
    ensures AxisTotal([], m) == 0.0
  {
    SplitNoSign(s);
    TrimAround("", s, "");
    assert "" + s + "" == s;
    assert !HasSeparator(s);
    assert [s][1..] == [];
    assert MergeAll(Merged([], false), [s]) == Merged([s], false);
    var values := ToValues([s], m);
    assert Total(values, 1) == Total(values, 0) + Contribution(values, 0);
  }

  /** A literal with a radix, which `toValue` leaves alone, counts with the value JavaScript gives it. */
  lemma RadixLiteral(letter: char, digits: string, popper: Rect, reference: Rect, view: Size, base: Side)
    requires RadixOf(letter) > 0 && digits != "" && forall c <- digits :: DigitOf(c) < RadixOf(letter)
    ensures Offsets(['0', letter] + digits, popper, reference, view, base)
         == (RadixValue(digits, RadixOf(letter)) as real, 0.0)
  {
    var s := ['0', letter] + digits;
    var m := MeasuresOf(popper, reference, view, base == Right || base == Left);
    var m' := MeasuresOf(popper, reference, view, !(base == Right || base == Left));
    LiteralIsSolid(letter, digits);
    LiteralIsText(letter, digits, m);
    SolidIsOneFragment(s, m);
    SolidIsOneFragment(s, m');
    assert s[2..] == digits;
  }

  /** Such as `0x1F`, for two digits of each radix. */
  lemma TwoDigitLiteral(letter: char, a: char, b: char, popper: Rect, reference: Rect, view: Size, base: Side)
    requires
      || (letter == 'x' && '0' <= a <= '9' && 'A' <= b <= 'F')
      || (letter == 'o' && '0' <= a <= '7' && '0' <= b <= '7')
      || (letter == 'b' && '0' <= a <= '1' && '0' <= b <= '1')
    ensures Offsets(['0', letter] + [a, b], popper, reference, view, base).0 ==
              (if letter == 'x' then 16 * (a as int - '0' as int) + (b as int - 'A' as int + 10)
               else (if letter == 'o' then 8 else 2) * (a as int - '0' as int) + (b as int - '0' as int)) as real
  {
    RadixLiteral(letter, [a, b], popper, reference, view, base);
    TwoDigits(a, b, RadixOf(letter));
  }

  lemma TwoDigits(a: char, b: char, radix: nat)
    ensures RadixValue([a, b], radix) == radix * DigitOf(a) + DigitOf(b)
  {
    assert [a, b][..1] == [a] && [a][..0] == "";
    assert RadixValue([a], radix) == radix * RadixValue("", radix) + DigitOf(a);
  }

  lemma JoinedOperand(gap: string, y: Term, m: Measures)
    requires y.unary.Some?
    ensures Signed(Joined(gap, y).op, OperandValue(Joined(gap, y), m)) == OperandValue(y, m)
  {
  }

  lemma JoinedPair(xs: seq<Term>, gap: string, ys: seq<Term>, tail: string)
    requires xs != [] && ys != [] && ys[0].unary.Some?
    ensures PrintPair(xs, Space(gap), ys, tail) == Print(Join(xs, gap, ys), tail)
  {
    var rest := [Joined(gap, ys[0])] + ys[1..];
    assert (xs + rest)[1..] == xs[1..] + rest && (xs + rest)[0] == xs[0];
    JoinedText(gap, ys, tail);
    ItemsTail(xs);
    ItemsTail(xs + rest);
    RestTextAppend(xs[1..], rest);
    GroupMiddle(OperandText(ItemOf(xs[0])), RestText(ItemsOf(xs[1..])), RestText(ItemsOf(rest)), tail);
  }

  lemma ItemsTail(ts: seq<Term>)
    requires ts != []
    ensures ItemsOf(ts)[1..] == ItemsOf(ts[1..])
  {
  }

  lemma JoinedText(gap: string, ys: seq<Term>, tail: string)
    requires ys != [] && ys[0].unary.Some?
    ensures gap + (AxisText(ItemsOf(ys)) + tail) == RestText(ItemsOf([Joined(gap, ys[0])] + ys[1..])) + tail
  {
    var y, rest := ys[0], [Joined(gap, ys[0])] + ys[1..];
    assert rest[1..] == ys[1..];
    ItemsTail(ys);
    ItemsTail(rest);
    JoinGapToSign(gap, y.gaps.afterOp, SignText(y.unary.value), y.gaps.afterUnary, Body(y), RestText(ItemsOf(ys[1..])),
                  tail);
  }

  lemma {:induction false} RestTextAppend(xs: seq<Term>, ys: seq<Term>)
    ensures RestText(ItemsOf(xs + ys)) == RestText(ItemsOf(xs)) + RestText(ItemsOf(ys))
    decreases |xs|
  {
    if xs == [] {
      assert xs + ys == ys;
    } else {
      assert (xs + ys)[1..] == xs[1..] + ys;
      ItemsTail(xs);
      ItemsTail(xs + ys);
      RestTextAppend(xs[1..], ys);
    }
  }

  lemma {:induction false} RestValueAppend(xs: seq<Term>, ys: seq<Term>, m: Measures)
    ensures RestValue(xs + ys, m) == RestValue(xs, m) + RestValue(ys, m)
    decreases |xs|
  {
    if xs == [] {
      assert xs + ys == ys;
    } else {
      assert (xs + ys)[1..] == xs[1..] + ys;
      RestValueAppend(xs[1..], ys, m);
    }
  }
}
