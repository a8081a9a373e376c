/** The `offset` option's little language: `'-10px + 5vh, 5px - 6%'` and the like. */
module OffsetParser {
  import opened Geometry

  // ---------------------------------------------------------------- Characters

  predicate IsSign(c: char) {
    c == '+' || c == '-'
  }

  /** The line terminators of JavaScript, where `.` in a pattern stops. */
  predicate EndsLine(c: char) {
    c == '\n' || c == '\r' || c == '\U{2028}' || c == '\U{2029}'
  }

  /** What `\s` matches and `trim` removes: ASCII white space and that of Unicode. */
  predicate IsBlank(c: char) {
    || c == ' ' || '\t' <= c <= '\r'
    || c == '\U{A0}' || c == '\U{1680}' || '\U{2000}' <= c <= '\U{200A}' || c == '\U{2028}' || c == '\U{2029}'
    || c == '\U{202F}' || c == '\U{205F}' || c == '\U{3000}' || c == '\U{FEFF}'
  }

  predicate IsSeparator(c: char) {
    c == ',' || IsBlank(c)
  }

  predicate IsDigit(c: char) {
    '0' <= c <= '9'
  }

  predicate Blank(s: string) {
    forall c <- s :: IsBlank(c)
  }

  predicate HasSeparator(s: string) {
    exists c <- s :: IsSeparator(c)
  }

  function TrimStart(s: string): string {
    if s != "" && IsBlank(s[0]) then TrimStart(s[1..]) else s
  }

  function TrimEnd(s: string): string {
    if s != "" && IsBlank(s[|s| - 1]) then TrimEnd(s[..|s| - 1]) else s
  }

  function Trim(s: string): string {
    TrimEnd(TrimStart(s))
  }

  // ---------------------------------------------------------------- Fragments

  /** `split(/(\+|\-)/)`: the stretches between signs, with each sign as a fragment of its own. */
  function SplitSigns(s: string): (fragments: seq<string>)
    ensures |fragments| >= 1
  {
    if s == "" then [""]
    else
      var rest := SplitSigns(s[1..]);
      if IsSign(s[0]) then ["", [s[0]]] + rest
      else [[s[0]] + rest[0]] + rest[1..]
  }

  function TrimAll(fragments: seq<string>): (trimmed: seq<string>)
    ensures |trimmed| == |fragments|
  {
    if fragments == [] then [] else [Trim(fragments[0])] + TrimAll(fragments[1..])
  }

  function Fragments(text: string): (fragments: seq<string>)
    ensures |fragments| >= 1
  {
    TrimAll(SplitSigns(text))
  }

  /** The index of the first fragment holding a comma or white space, or -1. */
  function Divider(fragments: seq<string>): (i: int)
    ensures -1 <= i < |fragments|
    ensures i >= 0 ==> HasSeparator(fragments[i])
    ensures forall j :: 0 <= j < (if i < 0 then |fragments| else i) ==> !HasSeparator(fragments[j])
  {
    if fragments == [] then -1
    else if HasSeparator(fragments[0]) then 0
    else
      var i := Divider(fragments[1..]);
      if i < 0 then -1 else i + 1
  }

  function BlanksEnd(s: string, i: nat): (j: nat)
    requires i <= |s|
    ensures i <= j <= |s|
    decreases |s| - i
  {
    if i < |s| && IsBlank(s[i]) then BlanksEnd(s, i + 1) else i
  }

  function PieceEnd(s: string, i: nat): (j: nat)
    requires i <= |s|
    ensures i <= j <= |s|
    decreases |s| - i
  {
    if i < |s| && !IsSeparator(s[i]) then PieceEnd(s, i + 1) else i
  }

  /** The first two pieces of `split(/\s*,\s*|\s+/)`. */
  function SplitPieces(s: string): (string, string) {
    var end := PieceEnd(s, 0);
    var blanks := BlanksEnd(s, end);
    var start := if blanks < |s| && s[blanks] == ',' then BlanksEnd(s, blanks + 1) else blanks;
    (s[..end], s[start..PieceEnd(s, start)])
  }

  /** The operand/operator lists of the two axes; the second is empty for a single offset. */
  function AxisFragments(fragments: seq<string>): (seq<string>, seq<string>) {
    var divider := Divider(fragments);
    if divider < 0 then (fragments, [])
    else
      var (first, second) := SplitPieces(fragments[divider]);
      (fragments[..divider] + [first], [second] + fragments[divider + 1..])
  }

  // ---------------------------------------------------------------- Merging unary signs

  datatype Merged = Merged(list: seq<string>, withPrevious: bool)

  /** One call of the callback that `parseOffset` hands to `reduce`. */
  function MergeStep(m: Merged, b: string): Merged {
    var last := |m.list| - 1;
    if last >= 0 && m.list[last] == "" && (b == "+" || b == "-") then
      Merged(m.list[last := b], true)
    else if last >= 0 && m.withPrevious then
      Merged(m.list[last := m.list[last] + b], false)
    else
      Merged(m.list + [b], m.withPrevious)
  }

  function MergeAll(m: Merged, fragments: seq<string>): Merged
    decreases |fragments|
  {
    if fragments == [] then m else MergeAll(MergeStep(m, fragments[0]), fragments[1..])
  }

  // ---------------------------------------------------------------- Values

  /** `x` divided by ten, `n` times. */
  function ScaleDown(x: real, n: nat): real
    decreases n
  {
    if n == 0 then x else ScaleDown(x / 10.0, n - 1)
  }

  function DigitsEnd(s: string, i: nat): (j: nat)
    requires i <= |s|
    ensures i <= j <= |s|
    ensures forall k :: i <= k < j ==> IsDigit(s[k])
    decreases |s| - i
  {
    if i < |s| && IsDigit(s[i]) then DigitsEnd(s, i + 1) else i
  }

  function DigitsValue(s: string): nat
    requires forall k :: 0 <= k < |s| ==> IsDigit(s[k])
  {
    if s == "" then 0
    else
      var last := s[|s| - 1];
      assert IsDigit(last);
      10 * DigitsValue(s[..|s| - 1]) + (last as int - '0' as int)
  }

  /** A fragment after `toValue`: a number of pixels, or the fragment itself. */
  datatype Value = Pixels(amount: real) | Text(text: string)

  /** What the percentages and viewport units of one axis are relative to. */
  datatype Measures = Measures(popper: real, reference: real, viewHeight: real, viewWidth: real)

  function Scale(unit: string, m: Measures): real {
    if unit != "" && unit[0] == '%' then
      if unit == "%p" then m.popper / 100.0 else m.reference / 100.0
    else if unit == "vh" then m.viewHeight / 100.0
    else if unit == "vw" then m.viewWidth / 100.0
    else 1.0
  }

  /** The end of the line that `i` stands on. */
  function LineEnd(s: string, i: nat): (j: nat)
    requires i <= |s|
    ensures i <= j <= |s|
    decreases |s| - i
  {
    if i < |s| && !EndsLine(s[i]) then LineEnd(s, i + 1) else i
  }

  /** What the pattern `((?:\-|\+)?\d*\.?\d*)(.*)` captures, the number taken apart. */
  datatype Scanned = Scanned(negative: bool, whole: string, fraction: string, unit: string)

  /** The end of an optional sign. */
  function SignEnd(s: string): (i: nat)
    ensures i <= |s|
  {
    if s != "" && IsSign(s[0]) then 1 else 0
  }

  /** The end of an optional point with the digits behind it. */
  function NumberEnd(s: string, wholeEnd: nat): (j: nat)
    requires wholeEnd <= |s|
    ensures wholeEnd <= j <= |s|
    ensures wholeEnd < j ==> forall k :: wholeEnd < k < j ==> IsDigit(s[k])
  {
    if wholeEnd < |s| && s[wholeEnd] == '.' then DigitsEnd(s, wholeEnd + 1) else wholeEnd
  }

  /** The captures, given where sign, whole digits, number and line end. */
  function Captures(s: string, start: nat, wholeEnd: nat, end: nat, lineEnd: nat): Scanned
    requires start <= wholeEnd <= end <= lineEnd <= |s|
  {
    Scanned(start == 1 && s[0] == '-', s[start..wholeEnd],
            if wholeEnd < end then s[wholeEnd + 1..end] else "", s[end..lineEnd])
  }

  function Scan(s: string): (r: Scanned)
    ensures forall k :: 0 <= k < |r.whole| ==> IsDigit(r.whole[k])
    ensures forall k :: 0 <= k < |r.fraction| ==> IsDigit(r.fraction[k])
  {
    var start := SignEnd(s);
    var wholeEnd := DigitsEnd(s, start);
    var end := NumberEnd(s, wholeEnd);
    Captures(s, start, wholeEnd, end, LineEnd(s, end))
  }

  function Magnitude(whole: string, fraction: string): real
    requires forall k :: 0 <= k < |whole| ==> IsDigit(whole[k])
    requires forall k :: 0 <= k < |fraction| ==> IsDigit(fraction[k])
  {
    DigitsValue(whole) as real + ScaleDown(DigitsValue(fraction) as real, |fraction|)
  }

  /** The value of `s`; a text without digits, or worth zero, is left as it is. */
  function Convert(s: string, size: real, negative: bool, scale: real): Value {
    var value := if negative then -size else size;
    if value == 0.0 then Text(s) else Pixels(scale * value)
  }

  function ToValue(s: string, m: Measures): Value {
    var r := Scan(s);
    Convert(s, Magnitude(r.whole, r.fraction), r.negative, Scale(r.unit, m))
  }

  function ToValues(fragments: seq<string>, m: Measures): (values: seq<Value>)
    ensures |values| == |fragments|
    ensures forall i :: 0 <= i < |values| ==> values[i] == ToValue(fragments[i], m)
  {
    seq(|fragments|, i requires 0 <= i < |fragments| => ToValue(fragments[i], m))
  }

  // ---------------------------------------------------------------- Fragments left as text

  /** The radix of a literal such as `0x1F`, or zero. */
  function RadixOf(c: char): nat {
    if c == 'x' || c == 'X' then 16 else if c == 'o' || c == 'O' then 8 else if c == 'b' || c == 'B' then 2 else 0
  }

  /** The digit that `c` stands for, or more than any. */
  function DigitOf(c: char): nat {
    if '0' <= c <= '9' then c as int - '0' as int
    else if 'a' <= c <= 'f' then c as int - 'a' as int + 10
    else if 'A' <= c <= 'F' then c as int - 'A' as int + 10
    else 16
  }

  function RadixValue(digits: string, radix: nat): nat {
    if digits == "" then 0
    else radix * RadixValue(digits[..|digits| - 1], radix) + DigitOf(digits[|digits| - 1])
  }

  /**
   * What JavaScript reads a fragment as that `toValue` left alone, in `isNumeric` and in the product:
   * an unsigned literal with a radix has its value. All others are not numeric, which adds nothing,
   * or zero.
   */
  function TextNumber(text: string): real {
    if |text| > 2 && text[0] == '0' && RadixOf(text[1]) > 0
      && forall c <- text[2..] :: DigitOf(c) < RadixOf(text[1]) then
      RadixValue(text[2..], RadixOf(text[1])) as real
    else 0.0
  }

  function NumberOf(value: Value): real {
    match value
    case Text(text) => TextNumber(text)
    case Pixels(amount) => amount
  }

  /** The contribution of `values[i]`: negative behind a minus. */
  function Contribution(values: seq<Value>, i: nat): real
    requires i < |values|
  {
    var number := NumberOf(values[i]);
    if i > 0 && values[i - 1] == Text("-") then -number else number
  }

  function Total(values: seq<Value>, n: nat): real
    requires n <= |values|
  {
    if n == 0 then 0.0 else Total(values, n - 1) + Contribution(values, n - 1)
  }

  function AxisTotal(fragments: seq<string>, m: Measures): real {
    var values := ToValues(MergeAll(Merged([], false), fragments).list, m);
    Total(values, |values|)
  }

  function MeasuresOf(popper: Rect, reference: Rect, view: Size, useHeight: bool): Measures {
    var axis := if useHeight then Y else X;
    Measures(popper.Len(axis), reference.Len(axis), view.height, view.width)
  }

  /** The two offsets of the text, in pixels. */
  function Offsets(text: string, popper: Rect, reference: Rect, view: Size, base: Side): (real, real) {
    var useHeight := base == Right || base == Left;
    var (first, second) := AxisFragments(Fragments(text));
    (AxisTotal(first, MeasuresOf(popper, reference, view, useHeight)),
     AxisTotal(second, MeasuresOf(popper, reference, view, !useHeight)))
  }

  // ---------------------------------------------------------------- The two loops

  method MergeFragments(fragments: seq<string>) returns (list: seq<string>)
    ensures list == MergeAll(Merged([], false), fragments).list
  {
    list := [];
    var withPrevious := false;
    for i := 0 to |fragments|
      invariant MergeAll(Merged(list, withPrevious), fragments[i..]) == MergeAll(Merged([], false), fragments)
    {
      var b := fragments[i];
      var last := |list| - 1;
      if last >= 0 && list[last] == "" && (b == "+" || b == "-") {
        list := list[last := b];
        withPrevious := true;
      } else if last >= 0 && withPrevious {
        list := list[last := list[last] + b];
        withPrevious := false;
      } else {
        list := list + [b];
      }
      assert fragments[i..][1..] == fragments[i + 1..];
    }
  }

  method ParseOffset(text: string, popper: Rect, reference: Rect, view: Size, base: Side)
    returns (offsets: (real, real))
    ensures offsets == Offsets(text, popper, reference, view, base)
  {
    var useHeight := base == Right || base == Left;
    var (first, second) := AxisFragments(Fragments(text));
    var x := SumAxis(first, MeasuresOf(popper, reference, view, useHeight));
    var y := SumAxis(second, MeasuresOf(popper, reference, view, !useHeight));
    offsets := (x, y);
  }

  method SumAxis(fragments: seq<string>, m: Measures) returns (offset: real)
    ensures offset == AxisTotal(fragments, m)
  {
    var merged := MergeFragments(fragments);
    offset := SumValues(ToValues(merged, m));
  }

  method SumValues(values: seq<Value>) returns (offset: real)
    ensures offset == Total(values, |values|)
  {
    offset := 0.0;
    for i := 0 to |values|
      invariant offset == Total(values, i)
    {
      var sign := if i > 0 && values[i - 1] == Text("-") then -1.0 else 1.0;
      offset := offset + NumberOf(values[i]) * sign;
    }
  }
}
