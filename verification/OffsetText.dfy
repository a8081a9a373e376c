/** The text of an offset expression, and how `parseOffset` takes it apart into fragments. */
module OffsetText {
  import opened Geometry
  import opened OffsetParser
  import opened Optional
  import opened Sequences

  datatype Sign = Plus | Minus

  /** The white space around the signs of an item. */
  datatype Gaps = Gaps(beforeOp: string, afterOp: string, afterUnary: string)

  /** An operand with the operator in front of it; the first item of an axis shows no operator. */
  datatype Item = Item(op: Sign, unary: Option<Sign>, body: string, gaps: Gaps)

  // ---------------------------------------------------------------- Characters of a body

  /** No sign, comma or white space. */
  ghost predicate Solid(s: string) {
    forall k :: 0 <= k < |s| ==> !IsSign(s[k]) && !IsSeparator(s[k])
  }

  ghost predicate NoSign(s: string) {
    forall k :: 0 <= k < |s| ==> !IsSign(s[k])
  }

  ghost predicate ValidItem(t: Item) {
    && t.body != "" && Solid(t.body)
    && Blank(t.gaps.beforeOp) && Blank(t.gaps.afterOp) && Blank(t.gaps.afterUnary)
  }

  ghost predicate ValidItems(ts: seq<Item>) {
    forall t <- ts :: ValidItem(t)
  }

  function SignText(s: Sign): string {
    if s == Plus then "+" else "-"
  }

  function OperandText(t: Item): string {
    t.gaps.afterOp + if t.unary.Some? then SignText(t.unary.value) + t.gaps.afterUnary + t.body else t.body
  }

  function RestText(ts: seq<Item>): string {
    if ts == [] then ""
    else ts[0].gaps.beforeOp + SignText(ts[0].op) + OperandText(ts[0]) + RestText(ts[1..])
  }

  function AxisText(ts: seq<Item>): string
    requires ts != []
  {
    OperandText(ts[0]) + RestText(ts[1..])
  }

  lemma {:induction false} TrimStartBlanks(gap: string, s: string)
    requires Blank(gap)
    ensures TrimStart(gap + s) == TrimStart(s)
  {
    if gap == "" {
      assert gap + s == s;
    } else {
      assert gap[0] in gap;
      assert (gap + s)[1..] == gap[1..] + s;
      TrimStartBlanks(gap[1..], s);
    }
  }

  lemma {:induction false} TrimEndBlanks(s: string, gap: string)
    requires Blank(gap)
    ensures TrimEnd(s + gap) == TrimEnd(s)
  {
    if gap == "" {
      assert s + gap == s;
    } else {
      var n := |gap| - 1;
      assert gap[n] in gap;
      assert (s + gap)[..|s + gap| - 1] == s + gap[..n];
      TrimEndBlanks(s, gap[..n]);
    }
  }

  /** Trimming drops the blanks around a text that neither starts nor ends with one. */
  lemma TrimAround(before: string, s: string, after: string)
    requires Blank(before) && Blank(after)
    requires s != "" ==> !IsBlank(s[0]) && !IsBlank(s[|s| - 1])
    ensures Trim(before + s + after) == s
  {
    assert before + s + after == before + (s + after);
    TrimStartBlanks(before, s + after);
    if s == "" {
      assert s + after == after == after + "";
      TrimStartBlanks(after, "");
    } else {
      assert TrimStart(s + after) == s + after;
      TrimEndBlanks(s, after);
    }
  }

  // ---------------------------------------------------------------- Splitting

  lemma {:induction false} SplitAtSign(before: string, sign: string, after: string)
    requires NoSign(before) && |sign| == 1 && IsSign(sign[0])
    ensures SplitSigns(before + sign + after) == [before, sign] + SplitSigns(after)
  {
    var s := before + sign + after;
    if before == "" {
      assert s[1..] == after;
      assert [s[0]] == sign;
    } else {
      assert s[1..] == before[1..] + sign + after;
      SplitAtSign(before[1..], sign, after);
      assert [before[0]] + before[1..] == before;
    }
  }

  lemma {:induction false} SplitNoSign(s: string)
    requires NoSign(s)
    ensures SplitSigns(s) == [s]
  {
    if s != "" {
      SplitNoSign(s[1..]);
      assert [s[0]] + s[1..] == s;
    }
  }

  lemma {:induction false} TrimAllAppend(a: seq<string>, b: seq<string>)
    ensures TrimAll(a + b) == TrimAll(a) + TrimAll(b)
  {
    if a == [] {
      assert a + b == b;
    } else {
      assert (a + b)[1..] == a[1..] + b;
      TrimAllAppend(a[1..], b);
    }
  }

  lemma FragmentsAtSign(before: string, sign: Sign, after: string)
    requires NoSign(before)
    ensures Fragments(before + SignText(sign) + after) == [Trim(before), SignText(sign)] + Fragments(after)
  {
    var s := SignText(sign);
    SplitAtSign(before, s, after);
    TrimAllAppend([before, s], SplitSigns(after));
    assert Trim(s) == s by { TrimAround("", s, ""); assert "" + s + "" == s; }
    assert [before, s][1..] == [s] && [s][1..] == [];
  }

  /** What follows the operator of a term in the list of fragments: everything up to its last fragment. */
  function UnaryFragments(t: Item): seq<string> {
    if t.unary.Some? then ["", SignText(t.unary.value)] else []
  }

  function OperandFragments(t: Item): seq<string> {
    UnaryFragments(t) + [t.body]
  }

  /** The fragments of the terms after the first. */
  function RestFragments(ts: seq<Item>): seq<string> {
    if ts == [] then [] else [SignText(ts[0].op)] + OperandFragments(ts[0]) + RestFragments(ts[1..])
  }

  function LastOf(t: Item, ts: seq<Item>): Item {
    if ts == [] then t else ts[|ts| - 1]
  }

  /** The gap that stands immediately in front of the body of `t`. */
  function GapOf(t: Item): string {
    if t.unary.Some? then t.gaps.afterUnary else t.gaps.afterOp
  }

  /** All fragments of `t` (from its body on) and `ts`, except the last one, whose text runs on. */
  function FrontFragments(t: Item, ts: seq<Item>): seq<string>
    decreases |ts|
  {
    if ts == [] then []
    else [t.body] + [SignText(ts[0].op)] + UnaryFragments(ts[0]) + FrontFragments(ts[0], ts[1..])
  }

  lemma FragmentsOfOperand(t: Item, rest: string)
    requires ValidItem(t)
    ensures Fragments(OperandText(t) + rest) == UnaryFragments(t) + Fragments(GapOf(t) + t.body + rest)
  {
    if t.unary.Some? {
      var gap := t.gaps.afterOp;
      var after := t.gaps.afterUnary + t.body + rest;
      assert OperandText(t) + rest == gap + SignText(t.unary.value) + after;
      BlankHasNoSign(gap);
      FragmentsAtSign(gap, t.unary.value, after);
      TrimAround(gap, "", "");
      assert gap + "" + "" == gap;
    } else {
      assert OperandText(t) + rest == GapOf(t) + t.body + rest;
    }
  }

  lemma BlankHasNoSign(gap: string)
    requires Blank(gap)
    ensures NoSign(gap)
  {
    forall k | 0 <= k < |gap|
      ensures !IsSign(gap[k])
    {
      assert gap[k] in gap;
    }
  }

  lemma {:induction false} FragmentsOfRest(t: Item, ts: seq<Item>, tail: string)
    requires ValidItem(t) && ValidItems(ts)
    ensures Fragments(GapOf(t) + t.body + (RestText(ts) + tail))
         == FrontFragments(t, ts) + Fragments(GapOf(LastOf(t, ts)) + LastOf(t, ts).body + tail)
    decreases |ts|
  {
    if ts == [] {
      assert RestText(ts) + tail == tail;
    } else {
      var u := ts[0];
      assert u in ts;
      var rest := RestText(ts[1..]) + tail;
      var before := GapOf(t) + t.body + u.gaps.beforeOp;
      SplitAtOperator(GapOf(t) + t.body, u.gaps.beforeOp, SignText(u.op), OperandText(u), RestText(ts[1..]), tail);
      assert Fragments(before + SignText(u.op) + (OperandText(u) + rest))
          == [t.body, SignText(u.op)] + Fragments(OperandText(u) + rest) by {
        BlankHasNoSign(GapOf(t));
        BlankHasNoSign(u.gaps.beforeOp);
        FragmentsAtSign(before, u.op, OperandText(u) + rest);
        TrimAround(GapOf(t), t.body, u.gaps.beforeOp);
      }
      FragmentsOfOperand(u, rest);
      assert GapOf(u) + u.body + rest == GapOf(u) + u.body + (RestText(ts[1..]) + tail);
      FragmentsOfRest(u, ts[1..], tail);
      assert LastOf(t, ts) == LastOf(u, ts[1..]);
      FlattenFive([t.body], [SignText(u.op)], UnaryFragments(u), FrontFragments(u, ts[1..]),
                   Fragments(GapOf(LastOf(t, ts)) + LastOf(t, ts).body + tail));
    }
  }

  lemma {:induction false} FrontThenLast(t: Item, ts: seq<Item>)
    ensures FrontFragments(t, ts) + [LastOf(t, ts).body] == [t.body] + RestFragments(ts)
    decreases |ts|
  {
    if ts != [] {
      FrontThenLast(ts[0], ts[1..]);
      assert LastOf(t, ts) == LastOf(ts[0], ts[1..]);
      PrependThreeToBoth([t.body], [SignText(ts[0].op)], UnaryFragments(ts[0]), FrontFragments(ts[0], ts[1..]),
              [LastOf(t, ts).body], [ts[0].body], RestFragments(ts[1..]));
    }
  }

  /** The fragments of one printed axis: each term's operator, unary sign and body, gaps removed. */
  lemma FragmentsOfAxis(ts: seq<Item>, tail: string)
    requires ts != [] && ValidItems(ts) && Blank(tail)
    ensures Fragments(AxisText(ts) + tail) == OperandFragments(ts[0]) + RestFragments(ts[1..])
  {
    var t, rest := ts[0], ts[1..];
    var last := LastOf(t, rest);
    assert AxisText(ts) + tail == OperandText(t) + (RestText(rest) + tail);
    FragmentsOfOperand(t, RestText(rest) + tail);
    FragmentsOfRest(t, rest, tail);
    FragmentOfLast(last, tail);
    FrontThenLast(t, rest);
  }

  lemma FragmentOfLast(t: Item, tail: string)
    requires ValidItem(t) && Blank(tail)
    ensures Fragments(GapOf(t) + t.body + tail) == [t.body]
  {
    BlankHasNoSign(GapOf(t));
    BlankHasNoSign(tail);
    SplitNoSign(GapOf(t) + t.body + tail);
    TrimAround(GapOf(t), t.body, tail);
  }

  // ---------------------------------------------------------------- Two axes

  ghost predicate NoSeparators(fragments: seq<string>) {
    forall k :: 0 <= k < |fragments| ==> !HasSeparator(fragments[k])
  }

  lemma {:induction false} FrontHasNoSeparators(t: Item, ts: seq<Item>)
    requires ValidItem(t) && ValidItems(ts)
    ensures NoSeparators(FrontFragments(t, ts))
    decreases |ts|
  {
    if ts != [] {
      assert ts[0] in ts;
      FrontHasNoSeparators(ts[0], ts[1..]);
    }
  }

  lemma {:induction false} RestHasNoSeparators(ts: seq<Item>)
    requires ValidItems(ts)
    ensures NoSeparators(RestFragments(ts))
  {
    if ts != [] {
      assert ts[0] in ts;
      OperandHasNoSeparators(ts[0]);
      RestHasNoSeparators(ts[1..]);
    }
  }

  lemma DividerAt(before: seq<string>, divider: string, after: seq<string>)
    requires NoSeparators(before) && HasSeparator(divider)
    ensures Divider(before + [divider] + after) == |before|
  {
    var all := before + [divider] + after;
    assert all[|before|] == divider;
    forall k | 0 <= k < |before|
      ensures !HasSeparator(all[k])
    {
      assert all[k] == before[k];
    }
  }

  lemma {:induction false} PieceEndAfter(a: string, piece: string, b: string)
    requires Solid(piece) && (b == "" || IsSeparator(b[0]))
    ensures PieceEnd(a + piece + b, |a|) == |a + piece|
    decreases |piece|
  {
    var s := a + piece + b;
    if piece == "" {
      assert s == a + b;
    } else {
      assert s[|a|] == piece[0];
      assert s == (a + [piece[0]]) + piece[1..] + b;
      PieceEndAfter(a + [piece[0]], piece[1..], b);
    }
  }

  lemma {:induction false} BlanksEndAfter(a: string, gap: string, b: string)
    requires Blank(gap) && (b == "" || !IsBlank(b[0]))
    ensures BlanksEnd(a + gap + b, |a|) == |a + gap|
    decreases |gap|
  {
    var s := a + gap + b;
    if gap == "" {
      assert s == a + b;
    } else {
      assert gap[0] in gap;
      assert s[|a|] == gap[0];
      assert s == (a + [gap[0]]) + gap[1..] + b;
      BlanksEndAfter(a + [gap[0]], gap[1..], b);
    }
  }

  /** What may stand between the two axes: a comma with white space, or white space alone. */
  datatype Between = Comma(before: string, after: string) | Space(gap: string)

  ghost predicate ValidBetween(d: Between) {
    match d
    case Comma(before, after) => Blank(before) && Blank(after)
    case Space(gap) => gap != "" && Blank(gap)
  }

  function BetweenText(d: Between): string {
    match d
    case Comma(before, after) => before + "," + after
    case Space(gap) => gap
  }

  /** `second` is empty exactly when the fragment ends at the divider because a unary sign follows. */
  lemma PiecesOfDivider(first: string, d: Between, gap: string, second: string)
    requires first != "" && Solid(first) && Solid(second) && ValidBetween(d) && Blank(gap)
    requires second == "" ==> d.Comma? && d.after + gap == ""
    ensures SplitPieces(first + BetweenText(d) + gap + second) == (first, second)
    ensures HasSeparator(first + BetweenText(d) + gap + second)
  {
    BetweenSeparates(d);
    PiecesAround(first, BetweenText(d), gap, second);
    StartOfSecond(first, d, gap, second);
  }

  lemma BetweenSeparates(d: Between)
    requires ValidBetween(d)
    ensures BetweenText(d) != "" && IsSeparator(BetweenText(d)[0])
  {
    if d.Comma? && d.before != "" {
      assert d.before[0] in d.before;
    } else if d.Space? {
      assert d.gap[0] in d.gap;
    }
  }

  lemma PiecesAround(first: string, between: string, gap: string, second: string)
    requires Solid(first) && Solid(second) && between != "" && IsSeparator(between[0])
    ensures var s, start := first + between + gap + second, |first + between + gap|;
            && PieceEnd(s, 0) == |first| && s[..|first|] == first
            && PieceEnd(s, start) == |s| && s[start..|s|] == second
            && s[|first|] == between[0]
  {
    var s := first + between + gap + second;
    assert s == "" + first + (between + gap + second);
    PieceEndAfter("", first, between + gap + second);
    assert s == (first + between + gap) + second + "";
    PieceEndAfter(first + between + gap, second, "");
  }

  /** Where the second piece starts, when the first ends at `end`. */
  function SecondStart(s: string, end: nat): nat
    requires end <= |s|
  {
    var blanks := BlanksEnd(s, end);
    if blanks < |s| && s[blanks] == ',' then BlanksEnd(s, blanks + 1) else blanks
  }

  lemma StartAfterComma(first: string, before: string, after: string, second: string)
    requires Solid(second) && Blank(before) && Blank(after)
    ensures SecondStart(first + before + "," + after + second, |first|) == |first + before + "," + after|
  {
    var s, rest := first + before + "," + after + second, "," + after + second;
    GroupLastThree(first + before, ",", after, second);
    BlanksEndAfter(first, before, rest);
    BlanksEndAfter(first + before + ",", after, second);
    assert s[|first + before|] == ',';
  }

  lemma StartAfterSpace(first: string, gap: string, second: string)
    requires second != "" && Solid(second) && Blank(gap)
    ensures SecondStart(first + gap + second, |first|) == |first + gap|
  {
    BlanksEndAfter(first, gap, second);
    assert (first + gap + second)[|first + gap|] == second[0];
  }

  /** The white space and comma after the first piece are skipped exactly. */
  lemma StartOfSecond(first: string, d: Between, gap: string, second: string)
    requires Solid(first) && Solid(second) && ValidBetween(d) && Blank(gap)
    requires second == "" ==> d.Comma?
    ensures SecondStart(first + BetweenText(d) + gap + second, |first|) == |first + BetweenText(d) + gap|
  {
    match d {
      case Comma(before, after) =>
        StartAfterComma(first, before, after + gap, second);
        assert first + BetweenText(d) + gap == first + before + "," + (after + gap);
      case Space(g) =>
        StartAfterSpace(first, g + gap, second);
        Associate(first, g, gap);
    }
  }

  /** The white space after the body of the first term. */
  function GapAfter(ys: seq<Item>, tail: string): string {
    if |ys| <= 1 then tail else ys[1].gaps.beforeOp
  }

  /** The fragments of an axis printed behind a text without signs, which runs into the first of them. */
  lemma FragmentsBehindBody(carry: string, ys: seq<Item>, tail: string)
    requires NoSign(carry) && ys != [] && ValidItems(ys) && Blank(tail) && ys[0].unary.None?
    ensures Fragments(carry + (AxisText(ys) + tail))
         == [Trim(carry + ys[0].gaps.afterOp + ys[0].body + GapAfter(ys, tail))] + RestFragments(ys[1..])
  {
    var y, rest := ys[0], ys[1..];
    assert y in ys;
    BlankHasNoSign(y.gaps.afterOp);
    var start := carry + y.gaps.afterOp + y.body;
    if rest == [] {
      assert carry + (AxisText(ys) + tail) == start + tail;
      BlankHasNoSign(tail);
      SplitNoSign(start + tail);
    } else {
      assert rest[0] in ys;
      assert ValidItems(rest);
      SplitAtSecondOperator(carry, y.gaps.afterOp, y.body, rest[0].gaps.beforeOp, SignText(rest[0].op),
                            OperandText(rest[0]), RestText(rest[1..]), tail);
      FragmentsBehindOp(start, rest, tail);
    }
  }

  lemma FragmentsBehindOp(start: string, rest: seq<Item>, tail: string)
    requires NoSign(start) && rest != [] && ValidItems(rest) && Blank(tail)
    ensures Fragments((start + rest[0].gaps.beforeOp) + SignText(rest[0].op) + (AxisText(rest) + tail))
         == [Trim(start + rest[0].gaps.beforeOp)] + RestFragments(rest)
  {
    var u := rest[0];
    assert u in rest;
    BlankHasNoSign(u.gaps.beforeOp);
    FragmentsAtSign(start + u.gaps.beforeOp, u.op, AxisText(rest) + tail);
    FragmentsOfAxis(rest, tail);
    SeparateFirstItem(Trim(start + u.gaps.beforeOp), SignText(u.op), OperandFragments(u), RestFragments(rest[1..]));
  }

  lemma FragmentsBehindSign(carry: string, ys: seq<Item>, tail: string)
    requires NoSign(carry) && ys != [] && ValidItems(ys) && Blank(tail) && ys[0].unary.Some?
    ensures Fragments(carry + (AxisText(ys) + tail))
         == [Trim(carry + ys[0].gaps.afterOp)] + (OperandFragments(ys[0]) + RestFragments(ys[1..]))[1..]
  {
    var y, rest := ys[0], ys[1..];
    assert y in ys;
    var start := carry + y.gaps.afterOp;
    var sign := SignText(y.unary.value);
    var after := GapOf(y) + y.body + (RestText(rest) + tail);
    BlankHasNoSign(y.gaps.afterOp);
    SplitAtUnarySign(carry, y.gaps.afterOp, sign, y.gaps.afterUnary, y.body, RestText(rest), tail);
    FragmentsAtSign(start, y.unary.value, after);
    assert Fragments(after) == [y.body] + RestFragments(rest) by {
      FragmentsOfRest(y, rest, tail);
      FragmentOfLast(LastOf(y, rest), tail);
      FrontThenLast(y, rest);
    }
    DropFirstItem("", sign, y.body, RestFragments(rest));
    SeparateFirstOfThree(Trim(start), sign, y.body, RestFragments(rest));
  }

  // ---------------------------------------------------------------- From text to axis fragments

  function FragmentsOf(ts: seq<Item>): seq<string>
    requires ts != []
  {
    OperandFragments(ts[0]) + RestFragments(ts[1..])
  }

  lemma SingleAxisFragments(xs: seq<Item>, tail: string)
    requires xs != [] && ValidItems(xs) && Blank(tail)
    ensures AxisFragments(Fragments(AxisText(xs) + tail)) == (FragmentsOf(xs), [])
  {
    FragmentsOfAxis(xs, tail);
    AxisHasNoSeparators(xs);
  }

  lemma AxisHasNoSeparators(xs: seq<Item>)
    requires xs != [] && ValidItems(xs)
    ensures NoSeparators(FragmentsOf(xs))
  {
    assert xs[0] in xs;
    OperandHasNoSeparators(xs[0]);
    RestHasNoSeparators(xs[1..]);
  }

  lemma OperandHasNoSeparators(t: Item)
    requires ValidItem(t)
    ensures NoSeparators(OperandFragments(t))
  {
  }

  /** The text of two axes. */
  function PairText(xs: seq<Item>, d: Between, ys: seq<Item>, tail: string): string
    requires xs != [] && ys != []
  {
    AxisText(xs) + (BetweenText(d) + (AxisText(ys) + tail))
  }

  /** The fragment that holds the divider, with the white space at its ends removed. */
  function DividerText(last: Item, d: Between, y: Item): string {
    if y.unary.Some? then
      last.body + if d.Comma? then d.before + "," else ""
    else last.body + BetweenText(d) + y.gaps.afterOp + y.body
  }

  lemma TrimDivider(last: Item, d: Between, y: Item, gap: string)
    requires ValidItem(last) && ValidItem(y) && ValidBetween(d) && Blank(gap)
    ensures var start := GapOf(last) + last.body + BetweenText(d) + y.gaps.afterOp;
            Trim(if y.unary.Some? then start else start + y.body + gap) == DividerText(last, d, y)
  {
    var front, text := GapOf(last), DividerText(last, d, y);
    if y.unary.None? {
      assert GapOf(last) + last.body + BetweenText(d) + y.gaps.afterOp + y.body + gap == front + text + gap;
      TrimAround(front, text, gap);
    } else if d.Comma? {
      assert GapOf(last) + last.body + BetweenText(d) + y.gaps.afterOp == front + text + (d.after + y.gaps.afterOp);
      TrimAround(front, text, d.after + y.gaps.afterOp);
    } else {
      assert GapOf(last) + last.body + BetweenText(d) + y.gaps.afterOp == front + text + (d.gap + y.gaps.afterOp);
      TrimAround(front, text, d.gap + y.gaps.afterOp);
    }
  }

  /** Everything in front of the second axis that has no sign after it: it runs into the second axis. */
  function Carry(last: Item, d: Between): string {
    GapOf(last) + last.body + BetweenText(d)
  }

  lemma CarryHasNoSign(last: Item, d: Between)
    requires ValidItem(last) && ValidBetween(d)
    ensures NoSign(Carry(last, d))
  {
    BlankHasNoSign(GapOf(last));
    if d.Comma? {
      BlankHasNoSign(d.before);
      BlankHasNoSign(d.after);
    } else {
      BlankHasNoSign(d.gap);
    }
  }

  lemma FragmentsOfFirst(x: Item, rest: seq<Item>, d: Between, second: string)
    requires ValidItem(x) && ValidItems(rest)
    ensures Fragments(OperandText(x) + RestText(rest) + (BetweenText(d) + second))
         == UnaryFragments(x) + (FrontFragments(x, rest) + Fragments(Carry(LastOf(x, rest), d) + second))
  {
    var last, t := LastOf(x, rest), BetweenText(d) + second;
    Associate(OperandText(x), RestText(rest), t);
    FragmentsOfOperand(x, RestText(rest) + t);
    FragmentsOfRest(x, rest, t);
    Associate(GapOf(last) + last.body, BetweenText(d), second);
  }

  lemma FragmentsOfSecond(last: Item, d: Between, ys: seq<Item>, tail: string)
    requires ValidItem(last) && ys != [] && ValidItems(ys) && ValidBetween(d) && Blank(tail)
    ensures Fragments(Carry(last, d) + (AxisText(ys) + tail)) == [DividerText(last, d, ys[0])] + FragmentsOf(ys)[1..]
  {
    var y := ys[0];
    assert y in ys;
    assert |ys| > 1 ==> ys[1] in ys;
    CarryHasNoSign(last, d);
    TrimDivider(last, d, y, GapAfter(ys, tail));
    if y.unary.Some? {
      FragmentsBehindSign(Carry(last, d), ys, tail);
    } else {
      FragmentsBehindBody(Carry(last, d), ys, tail);
      assert FragmentsOf(ys)[1..] == RestFragments(ys[1..]);
    }
  }

  lemma PairFragments(xs: seq<Item>, d: Between, ys: seq<Item>, tail: string)
    requires xs != [] && ValidItems(xs) && ys != [] && ValidItems(ys) && ValidBetween(d) && Blank(tail)
    ensures Fragments(PairText(xs, d, ys, tail))
         == UnaryFragments(xs[0]) + FrontFragments(xs[0], xs[1..])
            + [DividerText(LastOf(xs[0], xs[1..]), d, ys[0])] + FragmentsOf(ys)[1..]
  {
    var x, rest := xs[0], xs[1..];
    assert x in xs && LastOf(x, rest) in xs;
    FragmentsOfFirst(x, rest, d, AxisText(ys) + tail);
    FragmentsOfSecond(LastOf(x, rest), d, ys, tail);
    Flatten(UnaryFragments(x), FrontFragments(x, rest),
                [DividerText(LastOf(x, rest), d, ys[0])], FragmentsOf(ys)[1..]);
  }

  /** Splitting the fragment that holds the divider gives the last body of one axis and the first of the other. */
  lemma PiecesOf(last: Item, d: Between, y: Item)
    requires ValidItem(last) && ValidItem(y) && ValidBetween(d) && (d.Space? ==> y.unary.None?)
    ensures SplitPieces(DividerText(last, d, y)) == (last.body, if y.unary.Some? then "" else y.body)
    ensures HasSeparator(DividerText(last, d, y))
  {
    if y.unary.Some? {
      PiecesOfDivider(last.body, Comma(d.before, ""), "", "");
      assert DividerText(last, d, y) == last.body + BetweenText(Comma(d.before, "")) + "" + "";
    } else {
      PiecesOfDivider(last.body, d, y.gaps.afterOp, y.body);
    }
  }

  lemma DividedFragments(before: seq<string>, divider: string, after: seq<string>,
                         first: seq<string>, second: seq<string>)
    requires NoSeparators(before) && HasSeparator(divider)
    requires before + [SplitPieces(divider).0] == first && [SplitPieces(divider).1] + after == second
    ensures AxisFragments(before + [divider] + after) == (first, second)
  {
    DividerAt(before, divider, after);
    var all := before + [divider] + after;
    assert all[..|before|] == before && all[|before| + 1..] == after;
  }

  lemma PairAxisFragments(xs: seq<Item>, d: Between, ys: seq<Item>, tail: string)
    requires xs != [] && ValidItems(xs) && ys != [] && ValidItems(ys) && ValidBetween(d) && Blank(tail)
    requires d.Space? ==> ys[0].unary.None?
    ensures AxisFragments(Fragments(PairText(xs, d, ys, tail))) == (FragmentsOf(xs), FragmentsOf(ys))
  {
    PairFragments(xs, d, ys, tail);
    DividedPair(xs, d, ys);
  }

  lemma DividedPair(xs: seq<Item>, d: Between, ys: seq<Item>)
    requires xs != [] && ValidItems(xs) && ys != [] && ValidItems(ys) && ValidBetween(d)
    requires d.Space? ==> ys[0].unary.None?
    ensures AxisFragments(UnaryFragments(xs[0]) + FrontFragments(xs[0], xs[1..])
                          + [DividerText(LastOf(xs[0], xs[1..]), d, ys[0])] + FragmentsOf(ys)[1..])
         == (FragmentsOf(xs), FragmentsOf(ys))
  {
    var last := LastOf(xs[0], xs[1..]);
    assert xs[0] in xs && ys[0] in ys && last in xs;
    var before, divider, after :=
      UnaryFragments(xs[0]) + FrontFragments(xs[0], xs[1..]), DividerText(last, d, ys[0]), FragmentsOf(ys)[1..];
    assert NoSeparators(before) by {
      FrontHasNoSeparators(xs[0], xs[1..]);
    }
    assert HasSeparator(divider)
           && SplitPieces(divider) == (last.body, if ys[0].unary.Some? then "" else ys[0].body) by {
      PiecesOf(last, d, ys[0]);
    }
    FirstAxis(xs);
    SecondAxis(ys);
    DividedFragments(before, divider, after, FragmentsOf(xs), FragmentsOf(ys));
  }

  lemma FirstAxis(xs: seq<Item>)
    requires xs != []
    ensures UnaryFragments(xs[0]) + FrontFragments(xs[0], xs[1..]) + [LastOf(xs[0], xs[1..]).body] == FragmentsOf(xs)
  {
    var x, rest := xs[0], xs[1..];
    FrontThenLast(x, rest);
    PrependToBoth(UnaryFragments(x), FrontFragments(x, rest), [LastOf(x, rest).body], [x.body], RestFragments(rest));
  }

  lemma SecondAxis(ys: seq<Item>)
    requires ys != []
    ensures [if ys[0].unary.Some? then "" else ys[0].body] + FragmentsOf(ys)[1..] == FragmentsOf(ys)
  {
    assert [FragmentsOf(ys)[0]] + FragmentsOf(ys)[1..] == FragmentsOf(ys);
  }

  // ---------------------------------------------------------------- Merging

  /** An operand with its unary sign. */
  function Operand(t: Item): string {
    (if t.unary.Some? then SignText(t.unary.value) else "") + t.body
  }

  function RestOperands(ts: seq<Item>): seq<string> {
    if ts == [] then [] else [SignText(ts[0].op), Operand(ts[0])] + RestOperands(ts[1..])
  }

  lemma MergeOperand(a: seq<string>, t: Item, rest: seq<string>)
    requires ValidItem(t) && (a != [] ==> a[|a| - 1] != "")
    ensures MergeAll(Merged(a, false), OperandFragments(t) + rest) == MergeAll(Merged(a + [Operand(t)], false), rest)
  {
    var body := t.body;
    var fragments := OperandFragments(t) + rest;
    if t.unary.None? {
      assert fragments == [body] + rest && Operand(t) == body;
      MergeOne(Merged(a, false), body, rest);
    } else {
      var sign := SignText(t.unary.value);
      assert fragments == [""] + ([sign] + ([body] + rest));
      MergeOne(Merged(a, false), "", [sign] + ([body] + rest));
      MergeOne(Merged(a + [""], false), sign, [body] + rest);
      assert (a + [""])[|a| := sign] == a + [sign];
      MergeOne(Merged(a + [sign], true), body, rest);
      assert (a + [sign])[|a| := sign + body] == a + [Operand(t)];
    }
  }

  lemma MergeOne(m: Merged, b: string, rest: seq<string>)
    ensures MergeAll(m, [b] + rest) == MergeAll(MergeStep(m, b), rest)
  {
    assert ([b] + rest)[1..] == rest;
  }

  lemma {:induction false} MergeRest(a: seq<string>, ts: seq<Item>)
    requires ValidItems(ts) && a != [] && a[|a| - 1] != ""
    ensures MergeAll(Merged(a, false), RestFragments(ts)) == Merged(a + RestOperands(ts), false)
    decreases |ts|
  {
    if ts == [] {
      assert a + [] == a;
    } else {
      var t, rest := ts[0], RestFragments(ts[1..]);
      assert t in ts;
      MergeItem(a, t, rest);
      MergeRest(a + [SignText(t.op)] + [Operand(t)], ts[1..]);
      AppendTwoItems(a, SignText(t.op), Operand(t), RestOperands(ts[1..]));
    }
  }

  /** An operator and the operand behind it. */
  lemma MergeItem(a: seq<string>, t: Item, rest: seq<string>)
    requires ValidItem(t) && a != [] && a[|a| - 1] != ""
    ensures MergeAll(Merged(a, false), [SignText(t.op)] + OperandFragments(t) + rest)
         == MergeAll(Merged(a + [SignText(t.op)] + [Operand(t)], false), rest)
    ensures Operand(t) != ""
  {
    var sign := SignText(t.op);
    Associate([sign], OperandFragments(t), rest);
    MergeOne(Merged(a, false), sign, OperandFragments(t) + rest);
    MergeOperand(a + [sign], t, rest);
  }

  lemma MergeAxis(ts: seq<Item>)
    requires ts != [] && ValidItems(ts)
    ensures MergeAll(Merged([], false), FragmentsOf(ts)).list == [Operand(ts[0])] + RestOperands(ts[1..])
  {
    assert ts[0] in ts;
    MergeOperand([], ts[0], RestFragments(ts[1..]));
    assert [] + [Operand(ts[0])] == [Operand(ts[0])];
    MergeRest([Operand(ts[0])], ts[1..]);
  }
}
