// Integral images of the border-extended plane (integral_images and
// integral_images_highbd), the in-register prefix scan they use (scan_32),
// and the O(1) window sum read back from an integral image
// (boxsum_from_ii).

module IntegralImage {
  import opened FixedPoint
  import opened Planes

  /** _mm256_slli_si256(x, 4k): each 128-bit half (lanes 0-3, lanes 4-7)
      moves up by k lanes, zeros entering at the bottom of each half. */
  function ShiftInHalves(x: seq<int>, k: nat): (y: seq<int>)
    requires |x| == 8 && k < 4
    ensures |y| == 8
    ensures forall i :: 0 <= i < 8 ==> y[i] == if i < k || 4 <= i < 4 + k then 0 else x[i - k]
  {
    seq(8, i requires 0 <= i < 8 => if i < k || 4 <= i < 4 + k then 0 else x[i - k])
  }

  function AddLanes(x: seq<int>, y: seq<int>): (z: seq<int>)
    requires |x| == 8 && |y| == 8
    ensures |z| == 8
    ensures forall i :: 0 <= i < 8 ==> z[i] == x[i] + y[i]
  {
    seq(8, i requires 0 <= i < 8 => x[i] + y[i])
  }

  lemma Prefixes8(x: seq<int>)
    requires |x| == 8
    ensures Sum(x[..1]) == x[0]
    ensures Sum(x[..2]) == x[0] + x[1]
    ensures Sum(x[..3]) == x[0] + x[1] + x[2]
    ensures Sum(x[..4]) == x[0] + x[1] + x[2] + x[3]
    ensures Sum(x[..5]) == x[0] + x[1] + x[2] + x[3] + x[4]
    ensures Sum(x[..6]) == x[0] + x[1] + x[2] + x[3] + x[4] + x[5]
    ensures Sum(x[..7]) == x[0] + x[1] + x[2] + x[3] + x[4] + x[5] + x[6]
    ensures Sum(x[..8]) == x[0] + x[1] + x[2] + x[3] + x[4] + x[5] + x[6] + x[7]
  {
    assert x[..0] == [];
    PrefixStep(x, 0);
    PrefixStep(x, 1);
    PrefixStep(x, 2);
    PrefixStep(x, 3);
    PrefixStep(x, 4);
    PrefixStep(x, 5);
    PrefixStep(x, 6);
    PrefixStep(x, 7);
  }

  /** scan_32: two shift-and-add steps give the prefix sums of each half;
      adding the low half's total to the high half completes the scan. */
  function Scan8(x: seq<int>): (sc: seq<int>)
    requires |x| == 8
    ensures |sc| == 8
  {
    var x01 := ShiftInHalves(x, 1);
    var x02 := AddLanes(x, x01);
    var x03 := ShiftInHalves(x02, 2);
    var x04 := AddLanes(x02, x03);
    var s := x04[3];
    var s02 := seq(8, i requires 0 <= i < 8 => if i < 4 then 0 else s);
    AddLanes(x04, s02)
  }

  /** The shift-and-add steps of scan_32, lane by lane. */
  lemma Scan8Lanes(x: seq<int>)
    requires |x| == 8
    ensures Scan8(x)[0] == x[0]
    ensures Scan8(x)[1] == x[0] + x[1]
    ensures Scan8(x)[2] == x[0] + x[1] + x[2]
    ensures Scan8(x)[3] == x[0] + x[1] + x[2] + x[3]
    ensures Scan8(x)[4] == x[0] + x[1] + x[2] + x[3] + x[4]
    ensures Scan8(x)[5] == x[0] + x[1] + x[2] + x[3] + x[4] + x[5]
    ensures Scan8(x)[6] == x[0] + x[1] + x[2] + x[3] + x[4] + x[5] + x[6]
    ensures Scan8(x)[7] == x[0] + x[1] + x[2] + x[3] + x[4] + x[5] + x[6] + x[7]
  {
    var x02 := AddLanes(x, ShiftInHalves(x, 1));
    assert x02[0] == x[0] && x02[1] == x[0] + x[1] && x02[2] == x[1] + x[2] && x02[3] == x[2] + x[3];
    assert x02[4] == x[4] && x02[5] == x[4] + x[5] && x02[6] == x[5] + x[6] && x02[7] == x[6] + x[7];
    var x04 := AddLanes(x02, ShiftInHalves(x02, 2));
    assert x04[0] == x02[0] && x04[1] == x02[1] && x04[2] == x02[2] + x02[0] && x04[3] == x02[3] + x02[1];
    assert x04[4] == x02[4] && x04[5] == x02[5] && x04[6] == x02[6] + x02[4] && x04[7] == x02[7] + x02[5];
  }

  /** scan_32 returns the inclusive prefix sums x0, x0 + x1, ...,
      x0 + ... + x7 of its eight lanes. */
  lemma Scan8IsPrefixSums(x: seq<int>)
    requires |x| == 8
    ensures forall k :: 0 <= k < 8 ==> Scan8(x)[k] == Sum(x[..k + 1])
  {
    Scan8Lanes(x);
    Prefixes8(x);
    forall k | 0 <= k < 8
      ensures Scan8(x)[k] == Sum(x[..k + 1])
    {
      if k == 0 {
      } else if k == 1 {
      } else if k == 2 {
      } else if k == 3 {
      } else if k == 4 {
      } else if k == 5 {
      } else if k == 6 {
      } else {
      }
    }
  }

  /** The smallest multiple of 8 that is at least w: the columns the 8-wide
      chunks of integral_images cover. */
  function RoundUp8(w: nat): (w8: nat)
    ensures w <= w8 < w + 8 && w8 % 8 == 0
  {
    (w + 7) / 8 * 8
  }

  /** A chunk that starts below width ends within RoundUp8(width). */
  lemma NextChunk(j: nat, w: nat)
    requires j % 8 == 0 && j < w
    ensures j + 8 <= RoundUp8(w) && (j + 8) % 8 == 0
  {
    var n := (w + 7) / 8;
    assert j / 8 < n;
  }

  /** The chunk loop stops exactly at RoundUp8(width). */
  lemma ChunkEnd(j: nat, w: nat)
    requires j % 8 == 0 && w <= j <= RoundUp8(w)
    ensures j == RoundUp8(w)
  {
    assert j / 8 == (w + 7) / 8;
  }

  /** ii[y, x] is the prefix sum of p for every 0 <= y <= rows and
      0 <= x <= cols: row 0 and column 0 are zero. */
  ghost predicate IsIntegralImage(ii: array2<int>, p: Plane, rows: nat, cols: nat)
    reads ii
  {
    && rows < ii.Length0 && cols < ii.Length1 && Spans(p, rows, cols)
    && forall y, x :: 0 <= y <= rows && 0 <= x <= cols ==> ii[y, x] == Prefix(p, y, x)
  }

  /** An integral image of the squared samples: the cell at (y, x) holds
      the sum of squares of p[0..y-1][0..x-1]. */
  ghost predicate IsSquareIntegralImage(ii: array2<int>, p: Plane, rows: nat, cols: nat)
    reads ii
  {
    && rows < ii.Length0 && cols < ii.Length1 && Spans(p, rows, cols)
    && forall y, x :: 0 <= y <= rows && 0 <= x <= cols ==> ii[y, x] == RectSumSq(p, 0, y, 0, x)
  }

  /** The two descriptions of the sum-of-squares image agree. */
  lemma SquareImage(ii: array2<int>, p: Plane, rows: nat, cols: nat)
    requires Spans(p, rows, cols)
    ensures IsIntegralImage(ii, Squared(p), rows, cols) <==> IsSquareIntegralImage(ii, p, rows, cols)
  {
    SquaredSpans(p, rows, cols);
    forall y, x | 0 <= y <= rows && 0 <= x <= cols
      ensures RectSumSq(p, 0, y, 0, x) == Prefix(Squared(p), y, x)
    {
      RectSumSqIsSquared(p, 0, y, 0, x);
    }
  }

  /** An integral image over rows x cols is one over any smaller corner. */
  lemma IntegralImageNarrow(ii: array2<int>, p: Plane, rows: nat, cols: nat, cols': nat)
    requires cols' <= cols
    ensures IsIntegralImage(ii, p, rows, cols) ==> IsIntegralImage(ii, p, rows, cols')
    ensures IsSquareIntegralImage(ii, p, rows, cols) ==> IsSquareIntegralImage(ii, p, rows, cols')
  {
  }

  /** One lane of a chunk: the row prefix up to column j + k + 1 is the
      carried prefix up to j plus the in-chunk scan. */
  lemma ChunkLane(row: seq<int>, j: nat, k: nat)
    requires j + 8 <= |row| && k < 8
    ensures Sum(row[..j + k + 1]) == Sum(row[..j]) + Sum(row[j..j + 8][..k + 1])
  {
    assert row[j..j + 8][..k + 1] == row[j..j + k + 1];
    SliceSum(row, j, j + k + 1);
  }

  /** The values one chunk stores: lane k of the scan plus the cell above
      plus ldiff is the prefix sum of row i + 1 at column j + k + 1, and the
      scan's last lane plus ldiff is the row-i sum up to column j + 8. */
  lemma ChunkValues(p: Plane, i: nat, j: nat, cols: nat, ldiff: int, x: seq<int>)
    requires Spans(p, i + 1, cols) && j + 8 <= cols && x == p[i][j..j + 8]
    requires ldiff == Sum(p[i][..j])
    ensures forall k :: 0 <= k < 8 ==>
              Scan8(x)[k] + Prefix(p, i, j + k + 1) + ldiff == Prefix(p, i + 1, j + k + 1)
    ensures Scan8(x)[7] + ldiff == Sum(p[i][..j + 8])
  {
    Scan8IsPrefixSums(x);
    forall k | 0 <= k < 8
      ensures Scan8(x)[k] + Prefix(p, i, j + k + 1) + ldiff == Prefix(p, i + 1, j + k + 1)
    {
      PrefixNextRow(p, i, j + k + 1);
      ChunkLane(p[i], j, k);
    }
    ChunkLane(p[i], j, 7);
  }

  /** One 8-wide chunk of the row loop of integral_images: scan the eight
      samples of row i from column j, add the cells above and the carried
      row sum ldiff, store them in row i + 1, and return the new ldiff (the
      last output minus the cell above it). p is the plane the image sums:
      the samples for B, their squares for A. */
  method StoreChunk(ii: array2<int>, p: Plane, i: nat, j: nat, cols: nat, ldiff: int)
    returns (ldiffOut: int)
    requires Spans(p, i + 1, cols) && j + 8 <= cols
    requires i + 1 < ii.Length0 && cols < ii.Length1
    requires forall c :: 0 <= c <= cols ==> ii[i, c] == Prefix(p, i, c)
    requires ldiff == Sum(p[i][..j])
    modifies ii
    ensures forall y, c :: y == i + 1 && j < c <= j + 8 ==> ii[y, c] == Prefix(p, y, c)
    ensures forall y, c :: 0 <= y < ii.Length0 && 0 <= c < ii.Length1 && !(y == i + 1 && j < c <= j + 8)
              ==> ii[y, c] == old(ii[y, c])
    ensures ldiffOut == Sum(p[i][..j + 8])
  {
    var x := p[i][j..j + 8];
    var sc := Scan8(x);
    ChunkValues(p, i, j, cols, ldiff, x);
    var next := i + 1;
    forall c | j < c <= j + 8 {
      ii[next, c] := sc[c - j - 1] + ii[i, c] + ldiff;
    }
    ldiffOut := ii[next, j + 8] - ii[i, j + 8];
  }

  /** integral_images / integral_images_highbd. B receives the integral
      image of src and A that of its squares, over height rows and the
      width columns rounded up to the 8-wide chunks the loop writes. The
      top row is zeroed for width + 1 columns; the caller's buffer is
      already zero past that. No other cell changes. */
  method IntegralImages(src: Plane, width: nat, height: nat, A: array2<int>, B: array2<int>)
    requires A != B
    requires Spans(src, height, RoundUp8(width))
    requires height < A.Length0 && RoundUp8(width) < A.Length1
    requires height < B.Length0 && RoundUp8(width) < B.Length1
    requires forall x :: width < x <= RoundUp8(width) ==> A[0, x] == 0 && B[0, x] == 0
    modifies A, B
    ensures IsIntegralImage(B, src, height, RoundUp8(width))
    ensures IsSquareIntegralImage(A, src, height, RoundUp8(width))
    ensures forall y, c :: 0 <= y < B.Length0 && 0 <= c < B.Length1 && (y > height || c > RoundUp8(width)) ==> B[y, c] == old(B[y, c])
    ensures forall y, c :: 0 <= y < A.Length0 && 0 <= c < A.Length1 && (y > height || c > RoundUp8(width)) ==> A[y, c] == old(A[y, c])
  {
    var w8 := RoundUp8(width);
    var sq := Squared(src);
    SquaredSpans(src, height, w8);

    // Write out the zero top row.
    var x := 0;
    while x < width + 1
      invariant 0 <= x <= width + 1
      invariant forall c :: 0 <= c < x ==> A[0, c] == 0 && B[0, c] == 0
      invariant forall c :: width < c <= w8 ==> A[0, c] == 0 && B[0, c] == 0
      invariant forall y, c :: 0 <= y < B.Length0 && 0 <= c < B.Length1 && (y > 0 || c > width) ==> B[y, c] == old(B[y, c])
      invariant forall y, c :: 0 <= y < A.Length0 && 0 <= c < A.Length1 && (y > 0 || c > width) ==> A[y, c] == old(A[y, c])
    {
      A[0, x] := 0;
      B[0, x] := 0;
      x := x + 1;
    }

    var i := 0;
    while i < height
      invariant 0 <= i <= height
      invariant forall y, c :: 0 <= y <= i && 0 <= c <= w8 ==> B[y, c] == Prefix(src, y, c)
      invariant forall y, c :: 0 <= y <= i && 0 <= c <= w8 ==> A[y, c] == Prefix(sq, y, c)
      invariant forall y, c :: 0 <= y < B.Length0 && 0 <= c < B.Length1 && (y > i || c > w8) ==> B[y, c] == old(B[y, c])
      invariant forall y, c :: 0 <= y < A.Length0 && 0 <= c < A.Length1 && (y > i || c > w8) ==> A[y, c] == old(A[y, c])
    {
      FillRow(src, sq, width, i, A, B);
      i := i + 1;
    }
    SquareImage(A, src, height, w8);
  }

  /** One iteration of the row loop of integral_images: row i + 1 of B and
      A from row i of the samples and of their squares, given row i of both
      images. */
  method FillRow(src: Plane, sq: Plane, width: nat, i: nat, A: array2<int>, B: array2<int>)
    requires A != B
    requires Spans(src, i + 1, RoundUp8(width)) && Spans(sq, i + 1, RoundUp8(width))
    requires i + 1 < A.Length0 && RoundUp8(width) < A.Length1
    requires i + 1 < B.Length0 && RoundUp8(width) < B.Length1
    requires forall c :: 0 <= c <= RoundUp8(width) ==> B[i, c] == Prefix(src, i, c)
    requires forall c :: 0 <= c <= RoundUp8(width) ==> A[i, c] == Prefix(sq, i, c)
    modifies A, B
    ensures forall y, c :: y == i + 1 && 0 <= c <= RoundUp8(width) ==> B[y, c] == Prefix(src, y, c)
    ensures forall y, c :: y == i + 1 && 0 <= c <= RoundUp8(width) ==> A[y, c] == Prefix(sq, y, c)
    ensures forall y, c :: 0 <= y < B.Length0 && 0 <= c < B.Length1 && y != i + 1 ==> B[y, c] == old(B[y, c])
    ensures forall y, c :: 0 <= y < A.Length0 && 0 <= c < A.Length1 && y != i + 1 ==> A[y, c] == old(A[y, c])
    ensures forall y, c :: 0 <= y < B.Length0 && RoundUp8(width) < c < B.Length1 ==> B[y, c] == old(B[y, c])
    ensures forall y, c :: 0 <= y < A.Length0 && RoundUp8(width) < c < A.Length1 ==> A[y, c] == old(A[y, c])
  {
    var w8 := RoundUp8(width);
    var next := i + 1;
    // Zero the left column.
    A[next, 0] := 0;
    B[next, 0] := 0;
    PrefixLeftColumn(src, next);
    PrefixLeftColumn(sq, next);

    // ldiff is the running sum of row i to the left of the chunk.
    var ldiff1, ldiff2 := 0, 0;
    var j := 0;
    while j < width
      invariant 0 <= j <= w8 && j % 8 == 0
      invariant ldiff1 == Sum(src[i][..j]) && ldiff2 == Sum(sq[i][..j])
      invariant forall c :: 0 <= c <= w8 ==> B[i, c] == Prefix(src, i, c)
      invariant forall c :: 0 <= c <= w8 ==> A[i, c] == Prefix(sq, i, c)
      invariant forall c :: 0 <= c <= j ==> B[next, c] == Prefix(src, next, c)
      invariant forall c :: 0 <= c <= j ==> A[next, c] == Prefix(sq, next, c)
      invariant forall y, c :: 0 <= y < B.Length0 && 0 <= c < B.Length1 && y != next ==> B[y, c] == old(B[y, c])
      invariant forall y, c :: 0 <= y < A.Length0 && 0 <= c < A.Length1 && y != next ==> A[y, c] == old(A[y, c])
      invariant forall y, c :: 0 <= y < B.Length0 && w8 < c < B.Length1 ==> B[y, c] == old(B[y, c])
      invariant forall y, c :: 0 <= y < A.Length0 && w8 < c < A.Length1 ==> A[y, c] == old(A[y, c])
    {
      NextChunk(j, width);
      ldiff1 := StoreChunk(B, src, i, j, w8, ldiff1);
      ldiff2 := StoreChunk(A, sq, i, j, w8, ldiff2);
      j := j + 8;
    }
    ChunkEnd(j, width);
  }

  /** boxsum_from_ii for one lane: the sum over the (2r + 1) x (2r + 1)
      window centred on the pixel whose integral-image cell is (cy, cx),
      from the four corners br - bl - (tr - tl). */
  function BoxSumFromIi(ii: array2<int>, cy: int, cx: int, r: nat): int
    reads ii
    requires 0 <= cy - (r + 1) && cy + r < ii.Length0
    requires 0 <= cx - (r + 1) && cx + r < ii.Length1
  {
    var tl := ii[cy - (r + 1), cx - (r + 1)];
    var tr := ii[cy - (r + 1), cx + r];
    var bl := ii[cy + r, cx - (r + 1)];
    var br := ii[cy + r, cx + r];
    var u := tr - tl;
    var v := br - bl;
    v - u
  }

  /** Read from an integral image, boxsum_from_ii is exactly the window
      sum, provided the window's corners lie inside the image. */
  lemma BoxSumExact(ii: array2<int>, p: Plane, rows: nat, cols: nat, cy: int, cx: int, r: nat)
    requires IsIntegralImage(ii, p, rows, cols)
    requires r + 1 <= cy && cy + r <= rows
    requires r + 1 <= cx && cx + r <= cols
    ensures BoxSumFromIi(ii, cy, cx, r)
         == RectSum(p, cy - (r + 1), cy + r, cx - (r + 1), cx + r)
  {
    FourCorner(p, cy - (r + 1), cy + r, cx - (r + 1), cx + r);
  }

  /** The same for the sum-of-squares image. */
  lemma BoxSumExactSq(ii: array2<int>, p: Plane, rows: nat, cols: nat, cy: int, cx: int, r: nat)
    requires IsSquareIntegralImage(ii, p, rows, cols)
    requires r + 1 <= cy && cy + r <= rows
    requires r + 1 <= cx && cx + r <= cols
    ensures BoxSumFromIi(ii, cy, cx, r)
         == RectSumSq(p, cy - (r + 1), cy + r, cx - (r + 1), cx + r)
  {
    FourCornerSq(p, cy - (r + 1), cy + r, cx - (r + 1), cx + r);
  }

  /** A 32-bit lane holds a value modulo 2^32. */
  const LaneModulus: int := 0x1_0000_0000

  function Wrap32(x: int): int
  {
    x % LaneModulus
  }

  /** The sum-of-squares image as the source's 32-bit lanes hold it: each
      cell agrees with the exact sum of squares modulo 2^32. For 10- and
      12-bit samples the exact sums of a large region exceed 2^31. */
  ghost predicate IsWrappedSquareImage(ii: array2<int>, p: Plane, rows: nat, cols: nat)
    reads ii
  {
    && rows < ii.Length0 && cols < ii.Length1 && Spans(p, rows, cols)
    && forall y, x :: 0 <= y <= rows && 0 <= x <= cols ==> Wrap32(ii[y, x]) == Wrap32(RectSumSq(p, 0, y, 0, x))
  }

  /** Adding a multiple of 2^32 does not change a lane. */
  lemma Wrap32AddMultiple(x: int, k: int)
    ensures Wrap32(x + k * LaneModulus) == Wrap32(x)
  {
    var q := x / LaneModulus;
    assert x == q * LaneModulus + Wrap32(x);
    assert x + k * LaneModulus == (q + k) * LaneModulus + Wrap32(x);
    DivBetween(x + k * LaneModulus, LaneModulus, q + k);
  }

  /** The four-corner difference of lane values is the lane value of the
      four-corner difference of the exact values. */
  lemma Wrap32FourCorner(tl: int, tr: int, bl: int, br: int, tl0: int, tr0: int, bl0: int, br0: int)
    requires Wrap32(tl) == Wrap32(tl0) && Wrap32(tr) == Wrap32(tr0)
    requires Wrap32(bl) == Wrap32(bl0) && Wrap32(br) == Wrap32(br0)
    ensures Wrap32((br - bl) - (tr - tl)) == Wrap32((br0 - bl0) - (tr0 - tl0))
  {
    var M := LaneModulus;
    var k := br / M - bl / M - tr / M + tl / M;
    var k0 := br0 / M - bl0 / M - tr0 / M + tl0 / M;
    var w := Wrap32(br) - Wrap32(bl) - Wrap32(tr) + Wrap32(tl);
    assert (br - bl) - (tr - tl) == w + k * M;
    assert (br0 - bl0) - (tr0 - tl0) == w + k0 * M;
    Wrap32AddMultiple(w, k);
    Wrap32AddMultiple(w, k0);
  }

  /** boxsum_from_ii over the wrapped sum-of-squares image still yields the
      exact window sum of squares whenever that sum fits a lane: the
      four-corner difference is exact modulo 2^32. */
  lemma BoxSumWrappedSq(ii: array2<int>, p: Plane, rows: nat, cols: nat, cy: int, cx: int, r: nat)
    requires IsWrappedSquareImage(ii, p, rows, cols)
    requires r + 1 <= cy && cy + r <= rows
    requires r + 1 <= cx && cx + r <= cols
    requires RectSumSq(p, cy - (r + 1), cy + r, cx - (r + 1), cx + r) < LaneModulus
    ensures Wrap32(BoxSumFromIi(ii, cy, cx, r)) == RectSumSq(p, cy - (r + 1), cy + r, cx - (r + 1), cx + r)
  {
    var y0, y1, x0, x1 := cy - (r + 1), cy + r, cx - (r + 1), cx + r;
    FourCornerSq(p, y0, y1, x0, x1);
    RectSumSqNonNeg(p, y0, y1, x0, x1);
    Wrap32FourCorner(ii[y0, x0], ii[y0, x1], ii[y1, x0], ii[y1, x1],
                     RectSumSq(p, 0, y0, 0, x0), RectSumSq(p, 0, y0, 0, x1),
                     RectSumSq(p, 0, y1, 0, x0), RectSumSq(p, 0, y1, 0, x1));
  }

  /** The exact image the model builds is one the source's lanes can hold. */
  lemma ExactImageWraps(ii: array2<int>, p: Plane, rows: nat, cols: nat)
    requires IsSquareIntegralImage(ii, p, rows, cols)
    ensures IsWrappedSquareImage(ii, p, rows, cols)
  {
  }
}
