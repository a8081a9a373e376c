/** Concatenations grouped in different ways, as the proofs about texts and fragments need them. */
module Sequences {

  lemma Associate<T>(a: seq<T>, b: seq<T>, c: seq<T>)
    ensures a + b + c == a + (b + c)
  {
  }

  lemma GroupLastThree<T>(a: seq<T>, b: seq<T>, c: seq<T>, d: seq<T>)
    ensures a + b + c + d == a + (b + c + d)
  {
  }

  lemma GroupMiddle<T>(a: seq<T>, b: seq<T>, c: seq<T>, d: seq<T>)
    ensures a + b + (c + d) == a + (b + c) + d
  {
  }

  lemma GroupLastTwo<T>(a: seq<T>, b: seq<T>, c: seq<T>, d: seq<T>)
    ensures a + (b + c + d) == a + b + (c + d)
  {
  }

  lemma Flatten<T>(a: seq<T>, b: seq<T>, c: seq<T>, d: seq<T>)
    ensures a + (b + (c + d)) == a + b + c + d
  {
  }

  lemma FlattenFive<T>(a: seq<T>, b: seq<T>, c: seq<T>, d: seq<T>, e: seq<T>)
    ensures a + b + (c + (d + e)) == a + b + c + d + e
  {
  }

  /** Two equal pairs stay equal behind a common start. */
  lemma PrependToBoth<T>(a: seq<T>, b: seq<T>, c: seq<T>, d: seq<T>, e: seq<T>)
    requires b + c == d + e
    ensures a + b + c == a + d + e
  {
    assert a + b + c == a + (b + c);
  }

  lemma PrependThreeToBoth<T>(a: seq<T>, b: seq<T>, c: seq<T>, d: seq<T>, e: seq<T>, f: seq<T>, g: seq<T>)
    requires d + e == f + g
    ensures a + b + c + d + e == a + (b + (c + f) + g)
  {
    assert a + b + c + d + e == a + b + c + (d + e);
  }

  lemma AppendTwoItems<T>(a: seq<T>, b: T, c: T, d: seq<T>)
    ensures a + [b] + [c] + d == a + ([b, c] + d)
  {
  }

  lemma DropFirstItem<T>(a: T, b: T, c: T, d: seq<T>)
    ensures ([a, b] + [c] + d)[1..] == [b] + ([c] + d)
  {
  }

  lemma SeparateFirstItem<T>(a: T, b: T, c: seq<T>, d: seq<T>)
    ensures [a, b] + (c + d) == [a] + ([b] + c + d)
  {
  }

  lemma SeparateFirstOfThree<T>(a: T, b: T, c: T, d: seq<T>)
    ensures [a, b] + ([c] + d) == [a] + ([b] + ([c] + d))
  {
  }

  // ---------------------------------------------------------------- Texts split at a sign

  /** A text running into the next term, split at that term's operator. */
  lemma SplitAtOperator<T>(front: seq<T>, gap: seq<T>, sign: seq<T>, operand: seq<T>, rest: seq<T>, tail: seq<T>)
    ensures front + (gap + sign + operand + rest + tail) == (front + gap) + sign + (operand + (rest + tail))
  {
  }

  /** The same with a term in front whose text is still to be joined. */
  lemma SplitAtSecondOperator<T>(carry: seq<T>, gap: seq<T>, body: seq<T>, gap': seq<T>, sign: seq<T>,
                                 operand: seq<T>, rest: seq<T>, tail: seq<T>)
    ensures carry + (gap + body + (gap' + sign + operand + rest) + tail)
         == (carry + gap + body + gap') + sign + (operand + rest + tail)
  {
  }

  /** A text running into a signed operand, split at the unary sign. */
  lemma SplitAtUnarySign<T>(carry: seq<T>, gap: seq<T>, sign: seq<T>, gap': seq<T>, body: seq<T>, rest: seq<T>,
                            tail: seq<T>)
    ensures carry + (gap + (sign + gap' + body) + rest + tail) == carry + gap + sign + (gap' + body + (rest + tail))
  {
  }

  /** A gap in front of a signed operand, read as the gap in front of an operator. */
  lemma JoinGapToSign<T>(gap: seq<T>, gap': seq<T>, sign: seq<T>, after: seq<T>, body: seq<T>, rest: seq<T>,
                         tail: seq<T>)
    ensures gap + ((gap' + (sign + after + body)) + rest + tail) == ((gap + gap') + sign + (after + body) + rest) + tail
  {
  }
}
