// Sample planes and the sums the self-guided filter takes over them: row
// sums, rectangle sums, the 2-D prefix sums that integral images hold, and
// the Cauchy-Schwarz bound that keeps the 8-bit variance proxy non-negative.

module Planes {

  /** A plane of samples, row-major: p[y][x]. Rows may be longer than the
      region a computation looks at. */
  type Plane = seq<seq<int>>

  /** Every row below `rows` has at least `cols` samples. */
  predicate Spans(p: Plane, rows: nat, cols: nat)
  {
    rows <= |p| && forall y :: 0 <= y < rows ==> cols <= |p[y]|
  }

  /** Sum of a sequence, peeled from the end so that
      Sum(s[..k+1]) == Sum(s[..k]) + s[k] is one unfolding. */
  function Sum(s: seq<int>): int
  {
    if s == [] then 0 else Sum(s[..|s| - 1]) + s[|s| - 1]
  }

  /** The element-wise squares of a sequence. */
  function Squares(s: seq<int>): (q: seq<int>)
    ensures |q| == |s|
    ensures forall i :: 0 <= i < |s| ==> q[i] == s[i] * s[i]
  {
    seq(|s|, i requires 0 <= i < |s| => s[i] * s[i])
  }

  /** The plane of squared samples, whose integral image is the source's
      sum-of-squares image. */
  function Squared(p: Plane): (q: Plane)
    ensures |q| == |p|
    ensures forall y :: 0 <= y < |p| ==> q[y] == Squares(p[y])
  {
    seq(|p|, y requires 0 <= y < |p| => Squares(p[y]))
  }

  lemma SquaredSpans(p: Plane, rows: nat, cols: nat)
    requires Spans(p, rows, cols)
    ensures Spans(Squared(p), rows, cols)
  {
  }

  lemma {:induction false} SumAppend(a: seq<int>, b: seq<int>)
    ensures Sum(a + b) == Sum(a) + Sum(b)
    decreases |b|
  {
    if b != [] {
      var b' := b[..|b| - 1];
      assert (a + b)[..|a + b| - 1] == a + b';
      SumAppend(a, b');
    } else {
      assert a + b == a;
    }
  }

  /** A row prefix grows by one sample at a time. */
  lemma PrefixStep(s: seq<int>, k: nat)
    requires k < |s|
    ensures Sum(s[..k + 1]) == Sum(s[..k]) + s[k]
  {
    assert s[..k + 1][..k] == s[..k];
  }

  /** Sum over s[lo..hi] is the difference of two prefix sums. */
  lemma SliceSum(s: seq<int>, lo: nat, hi: nat)
    requires lo <= hi <= |s|
    ensures Sum(s[lo..hi]) == Sum(s[..hi]) - Sum(s[..lo])
  {
    assert s[..hi] == s[..lo] + s[lo..hi];
    SumAppend(s[..lo], s[lo..hi]);
  }

  lemma SquaresSlice(s: seq<int>, lo: nat, hi: nat)
    requires lo <= hi <= |s|
    ensures Squares(s[lo..hi]) == Squares(s)[lo..hi]
  {
  }

  /** Sum of p[y][x] over y0 <= y < y1, x0 <= x < x1. */
  function RectSum(p: Plane, y0: nat, y1: nat, x0: nat, x1: nat): int
    requires y0 <= y1 && x0 <= x1 && Spans(p, y1, x1)
    decreases y1 - y0
  {
    if y1 == y0 then 0 else RectSum(p, y0, y1 - 1, x0, x1) + Sum(p[y1 - 1][x0..x1])
  }

  /** Sum of the squares of a sequence. */
  function SumSq(s: seq<int>): int
  {
    if s == [] then 0 else SumSq(s[..|s| - 1]) + s[|s| - 1] * s[|s| - 1]
  }

  /** Sum of p[y][x]^2 over y0 <= y < y1, x0 <= x < x1. */
  function RectSumSq(p: Plane, y0: nat, y1: nat, x0: nat, x1: nat): int
    requires y0 <= y1 && x0 <= x1 && Spans(p, y1, x1)
    decreases y1 - y0
  {
    if y1 == y0 then 0 else RectSumSq(p, y0, y1 - 1, x0, x1) + SumSq(p[y1 - 1][x0..x1])
  }

  lemma {:induction false} SumSqAppend(a: seq<int>, b: seq<int>)
    ensures SumSq(a + b) == SumSq(a) + SumSq(b)
    decreases |b|
  {
    if b != [] {
      var b' := b[..|b| - 1];
      assert (a + b)[..|a + b| - 1] == a + b';
      SumSqAppend(a, b');
    } else {
      assert a + b == a;
    }
  }

  lemma {:induction false} SumSqIsSumOfSquares(s: seq<int>)
    ensures SumSq(s) == Sum(Squares(s))
  {
    if s != [] {
      var k := |s| - 1;
      SumSqIsSumOfSquares(s[..k]);
      assert Squares(s)[..k] == Squares(s[..k]);
    }
  }

  /** Summing the squares of a rectangle is summing that rectangle of the
      squared plane. */
  lemma {:induction false} RectSumSqIsSquared(p: Plane, y0: nat, y1: nat, x0: nat, x1: nat)
    requires y0 <= y1 && x0 <= x1 && Spans(p, y1, x1)
    ensures Spans(Squared(p), y1, x1)
    ensures RectSumSq(p, y0, y1, x0, x1) == RectSum(Squared(p), y0, y1, x0, x1)
    decreases y1 - y0
  {
    SquaredSpans(p, y1, x1);
    if y1 > y0 {
      RectSumSqIsSquared(p, y0, y1 - 1, x0, x1);
      SumSqIsSumOfSquares(p[y1 - 1][x0..x1]);
      SquaresSlice(p[y1 - 1], x0, x1);
    }
  }

  /** The value an integral image holds at (y, x): the sum of the samples
      above and to the left, p[0..y-1][0..x-1]. Row 0 and column 0 are 0. */
  function Prefix(p: Plane, y: nat, x: nat): (s: int)
    requires Spans(p, y, x)
    ensures y == 0 ==> s == 0
  {
    RectSum(p, 0, y, 0, x)
  }

  /** The 2-D prefix-sum recurrence: one more row adds that row's prefix. */
  lemma PrefixNextRow(p: Plane, y: nat, x: nat)
    requires Spans(p, y + 1, x)
    ensures Prefix(p, y + 1, x) == Prefix(p, y, x) + Sum(p[y][..x])
  {
    assert p[y][0..x] == p[y][..x];
  }

  lemma {:induction false} PrefixLeftColumn(p: Plane, y: nat)
    requires Spans(p, y, 0)
    ensures Prefix(p, y, 0) == 0
  {
    if y > 0 {
      PrefixLeftColumn(p, y - 1);
      assert p[y - 1][0..0] == [];
    }
  }

  /** Splitting a rectangle's rows: a band is the difference of two bands
      that start at row 0. */
  lemma {:induction false} RectRows(p: Plane, y0: nat, y1: nat, x0: nat, x1: nat)
    requires y0 <= y1 && x0 <= x1 && Spans(p, y1, x1)
    ensures RectSum(p, y0, y1, x0, x1) == RectSum(p, 0, y1, x0, x1) - RectSum(p, 0, y0, x0, x1)
    decreases y1 - y0
  {
    if y1 > y0 {
      RectRows(p, y0, y1 - 1, x0, x1);
    }
  }

  /** Splitting a band's columns: it is the difference of two prefixes. */
  lemma {:induction false} RectColumns(p: Plane, y1: nat, x0: nat, x1: nat)
    requires x0 <= x1 && Spans(p, y1, x1)
    ensures RectSum(p, 0, y1, x0, x1) == Prefix(p, y1, x1) - Prefix(p, y1, x0)
  {
    if y1 > 0 {
      RectColumns(p, y1 - 1, x0, x1);
      SliceSum(p[y1 - 1], x0, x1);
      assert p[y1 - 1][0..x1] == p[y1 - 1][..x1];
      assert p[y1 - 1][0..x0] == p[y1 - 1][..x0];
    }
  }

  /** The four-corner identity behind boxsum_from_ii: the sum over a
      rectangle is br - bl - (tr - tl) of the prefix sums at its corners. */
  lemma FourCorner(p: Plane, y0: nat, y1: nat, x0: nat, x1: nat)
    requires y0 <= y1 && x0 <= x1 && Spans(p, y1, x1)
    ensures RectSum(p, y0, y1, x0, x1)
         == (Prefix(p, y1, x1) - Prefix(p, y1, x0)) - (Prefix(p, y0, x1) - Prefix(p, y0, x0))
  {
    RectRows(p, y0, y1, x0, x1);
    RectColumns(p, y1, x0, x1);
    RectColumns(p, y0, x0, x1);
  }

  lemma SliceSumSq(s: seq<int>, lo: nat, hi: nat)
    requires lo <= hi <= |s|
    ensures SumSq(s[lo..hi]) == SumSq(s[..hi]) - SumSq(s[..lo])
  {
    assert s[..hi] == s[..lo] + s[lo..hi];
    SumSqAppend(s[..lo], s[lo..hi]);
  }

  lemma {:induction false} RectRowsSq(p: Plane, y0: nat, y1: nat, x0: nat, x1: nat)
    requires y0 <= y1 && x0 <= x1 && Spans(p, y1, x1)
    ensures RectSumSq(p, y0, y1, x0, x1) == RectSumSq(p, 0, y1, x0, x1) - RectSumSq(p, 0, y0, x0, x1)
    decreases y1 - y0
  {
    if y1 > y0 {
      RectRowsSq(p, y0, y1 - 1, x0, x1);
    }
  }

  lemma {:induction false} RectColumnsSq(p: Plane, y1: nat, x0: nat, x1: nat)
    requires x0 <= x1 && Spans(p, y1, x1)
    ensures RectSumSq(p, 0, y1, x0, x1) == RectSumSq(p, 0, y1, 0, x1) - RectSumSq(p, 0, y1, 0, x0)
  {
    if y1 > 0 {
      RectColumnsSq(p, y1 - 1, x0, x1);
      SliceSumSq(p[y1 - 1], x0, x1);
      assert p[y1 - 1][0..x1] == p[y1 - 1][..x1];
      assert p[y1 - 1][0..x0] == p[y1 - 1][..x0];
    }
  }

  /** The four-corner identity for sums of squares. */
  lemma FourCornerSq(p: Plane, y0: nat, y1: nat, x0: nat, x1: nat)
    requires y0 <= y1 && x0 <= x1 && Spans(p, y1, x1)
    ensures RectSumSq(p, y0, y1, x0, x1)
         == (RectSumSq(p, 0, y1, 0, x1) - RectSumSq(p, 0, y1, 0, x0))
          - (RectSumSq(p, 0, y0, 0, x1) - RectSumSq(p, 0, y0, 0, x0))
  {
    RectRowsSq(p, y0, y1, x0, x1);
    RectColumnsSq(p, y1, x0, x1);
    RectColumnsSq(p, y0, x0, x1);
  }

  /** The samples of a rectangle, row after row. */
  function Flatten(p: Plane, y0: nat, y1: nat, x0: nat, x1: nat): (f: seq<int>)
    requires y0 <= y1 && x0 <= x1 && Spans(p, y1, x1)
    decreases y1 - y0
  {
    if y1 == y0 then [] else Flatten(p, y0, y1 - 1, x0, x1) + p[y1 - 1][x0..x1]
  }

  lemma MulSucc(h: int, w: int)
    ensures h * w + w == (h + 1) * w
  {
  }

  lemma {:induction false} FlattenLength(p: Plane, y0: nat, y1: nat, x0: nat, x1: nat)
    requires y0 <= y1 && x0 <= x1 && Spans(p, y1, x1)
    ensures |Flatten(p, y0, y1, x0, x1)| == (y1 - y0) * (x1 - x0)
    decreases y1 - y0
  {
    if y1 > y0 {
      FlattenLength(p, y0, y1 - 1, x0, x1);
      MulSucc(y1 - 1 - y0, x1 - x0);
    }
  }

  lemma {:induction false} FlattenSum(p: Plane, y0: nat, y1: nat, x0: nat, x1: nat)
    requires y0 <= y1 && x0 <= x1 && Spans(p, y1, x1)
    ensures Sum(Flatten(p, y0, y1, x0, x1)) == RectSum(p, y0, y1, x0, x1)
    decreases y1 - y0
  {
    if y1 > y0 {
      FlattenSum(p, y0, y1 - 1, x0, x1);
      SumAppend(Flatten(p, y0, y1 - 1, x0, x1), p[y1 - 1][x0..x1]);
    }
  }

  lemma {:induction false} FlattenSumSq(p: Plane, y0: nat, y1: nat, x0: nat, x1: nat)
    requires y0 <= y1 && x0 <= x1 && Spans(p, y1, x1)
    ensures SumSq(Flatten(p, y0, y1, x0, x1)) == RectSumSq(p, y0, y1, x0, x1)
    decreases y1 - y0
  {
    if y1 > y0 {
      FlattenSumSq(p, y0, y1 - 1, x0, x1);
      SumSqAppend(Flatten(p, y0, y1 - 1, x0, x1), p[y1 - 1][x0..x1]);
    }
  }

  lemma SquareStep(q: int, s: int, k: int, x: int, y: int)
    ensures (q + y * y) - 2 * x * (s + y) + (k + 1) * x * x
         == (q - 2 * x * s + k * x * x) + (y - x) * (y - x)
  {
  }

  lemma SquareNonNeg(d: int)
    ensures d * d >= 0
  {
  }

  /** Sum of squared deviations from x, expanded: it is never negative. */
  lemma {:induction false} DeviationsNonNeg(s: seq<int>, x: int)
    ensures SumSq(s) - 2 * x * Sum(s) + |s| * x * x >= 0
  {
    if s != [] {
      var k := |s| - 1;
      var s' := s[..k];
      DeviationsNonNeg(s', x);
      SquareStep(SumSq(s'), Sum(s'), k, x, s[k]);
      SquareNonNeg(s[k] - x);
    }
  }

  lemma CauchyStep(q: int, s: int, k: int, y: int)
    ensures (k + 1) * (q + y * y) - (s + y) * (s + y)
         == (k * q - s * s) + (q - 2 * y * s + k * y * y)
  {
  }

  /** Cauchy-Schwarz for the all-ones vector: n * sum of squares is at least
      the squared sum. */
  lemma {:induction false} CauchySchwarz(s: seq<int>)
    ensures |s| * SumSq(s) - Sum(s) * Sum(s) >= 0
  {
    if s != [] {
      var k := |s| - 1;
      var s' := s[..k];
      CauchySchwarz(s');
      DeviationsNonNeg(s', s[k]);
      CauchyStep(SumSq(s'), Sum(s'), k, s[k]);
    }
  }

  /** The same bound for a rectangle of n = h * w samples. */
  lemma RectCauchySchwarz(p: Plane, y0: nat, y1: nat, x0: nat, x1: nat)
    requires y0 <= y1 && x0 <= x1 && Spans(p, y1, x1)
    ensures (y1 - y0) * (x1 - x0) * RectSumSq(p, y0, y1, x0, x1)
            >= RectSum(p, y0, y1, x0, x1) * RectSum(p, y0, y1, x0, x1)
  {
    FlattenLength(p, y0, y1, x0, x1);
    FlattenSum(p, y0, y1, x0, x1);
    FlattenSumSq(p, y0, y1, x0, x1);
    CauchySchwarz(Flatten(p, y0, y1, x0, x1));
  }

  lemma {:induction false} RectSumNonNeg(p: Plane, y0: nat, y1: nat, x0: nat, x1: nat)
    requires y0 <= y1 && x0 <= x1 && Spans(p, y1, x1)
    requires forall y, x :: y0 <= y < y1 && x0 <= x < x1 ==> 0 <= p[y][x]
    ensures RectSum(p, y0, y1, x0, x1) >= 0
    decreases y1 - y0
  {
    if y1 > y0 {
      RectSumNonNeg(p, y0, y1 - 1, x0, x1);
      SumNonNeg(p[y1 - 1][x0..x1]);
    }
  }

  lemma {:induction false} SumNonNeg(s: seq<int>)
    requires forall i :: 0 <= i < |s| ==> 0 <= s[i]
    ensures Sum(s) >= 0
  {
    if s != [] {
      SumNonNeg(s[..|s| - 1]);
    }
  }

  lemma {:induction false} SumSqNonNeg(s: seq<int>)
    ensures SumSq(s) >= 0
  {
    if s != [] {
      SumSqNonNeg(s[..|s| - 1]);
      SquareNonNeg(s[|s| - 1]);
    }
  }

  lemma {:induction false} RectSumSqNonNeg(p: Plane, y0: nat, y1: nat, x0: nat, x1: nat)
    requires y0 <= y1 && x0 <= x1 && Spans(p, y1, x1)
    ensures RectSumSq(p, y0, y1, x0, x1) >= 0
    decreases y1 - y0
  {
    if y1 > y0 {
      RectSumSqNonNeg(p, y0, y1 - 1, x0, x1);
      SumSqNonNeg(p[y1 - 1][x0..x1]);
    }
  }

  /** Every sample of the first `rows` rows and `cols` columns is at least
      zero: the samples are unsigned pixels. */
  predicate NonNegative(p: Plane, rows: nat, cols: nat)
  {
    Spans(p, rows, cols) && forall y, x :: 0 <= y < rows && 0 <= x < cols ==> 0 <= p[y][x]
  }

  /** Window sums of unsigned samples and of their squares are non-negative. */
  lemma WindowSumsNonNeg(p: Plane, rows: nat, cols: nat, y0: nat, y1: nat, x0: nat, x1: nat)
    requires NonNegative(p, rows, cols) && y0 <= y1 <= rows && x0 <= x1 <= cols
    ensures RectSum(p, y0, y1, x0, x1) >= 0
    ensures RectSumSq(p, y0, y1, x0, x1) >= 0
  {
    RectSumNonNeg(p, y0, y1, x0, x1);
    RectSumSqNonNeg(p, y0, y1, x0, x1);
  }
}
