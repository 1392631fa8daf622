// The per-pixel weights of one self-guided pass: the variance proxy p of a
// window (compute_p), the clamped table index z, the weight a and the offset
// b (calc_ab), computed for the image and a one-pixel halo around it.

module SgrCoefficients {
  import opened FixedPoint
  import opened Planes
  import opened SgrConfig
  import opened IntegralImage

  /** Round-half-up right shift by s, as compute_p applies it to bring
      high-bit-depth window sums to the 8-bit scale. */
  function Normalise(v: int, s: nat): int
  {
    Shr(v + RoundForShift(s), s)
  }

  /** compute_p: the variance proxy n * sum(x^2) - (sum x)^2 of a window of
      n samples. Above 8 bits the sums are first normalised to 8-bit scale
      and the proxy is floored at zero, since rounding can make it negative.
      The shifts are logical (srl), which agrees with Shr on the
      non-negative sums. */
  function ComputeP(sum1: int, sum2: int, bitDepth: nat, n: nat): (p: int)
    requires 0 <= sum1 && 0 <= sum2
    ensures bitDepth > 8 ==> p >= 0
  {
    if bitDepth > 8 then
      var a := Normalise(sum2, 2 * (bitDepth - 8));
      var b := Normalise(sum1, bitDepth - 8);
      var bb := b * b;
      var an := Max(a * n, bb);
      an - bb
    else
      var bb := sum1 * sum1;
      var an := sum2 * n;
      an - bb
  }

  /** The 8-bit proxy of a window is never negative: n * sum(x^2) >= (sum x)^2
      is the Cauchy-Schwarz inequality over the window's n samples. */
  lemma WindowPNonNeg(ext: Plane, rows: nat, cols: nat, y0: nat, y1: nat, x0: nat, x1: nat,
                      bitDepth: nat, r: nat, sum1: int, sum2: int)
    requires NonNegative(ext, rows, cols) && y0 <= y1 <= rows && x0 <= x1 <= cols
    requires y1 - y0 == 2 * r + 1 && x1 - x0 == 2 * r + 1
    requires sum1 == RectSum(ext, y0, y1, x0, x1) && sum2 == RectSumSq(ext, y0, y1, x0, x1)
    ensures 0 <= sum1 && 0 <= sum2 && ComputeP(sum1, sum2, bitDepth, WindowSize(r)) >= 0
  {
    var n := WindowSize(r);
    WindowArea(r, y0, y1, x0, x1);
    WindowSumsNonNeg(ext, rows, cols, y0, y1, x0, x1);
    if bitDepth <= 8 {
      RectCauchySchwarz(ext, y0, y1, x0, x1);
      assert sum2 * n - sum1 * sum1 >= 0;
    }
  }

  /** A window of radius r spans 2r + 1 rows and columns: n samples. */
  lemma WindowArea(r: nat, y0: int, y1: int, x0: int, x1: int)
    requires y1 - y0 == 2 * r + 1 && x1 - x0 == 2 * r + 1
    ensures (y1 - y0) * (x1 - x0) == WindowSize(r)
  {
  }

  /** The table index z: p * s rounded down by SGRPROJ_MTABLE_BITS and
      clamped to 255, so that the x_by_xplus1 lookup stays in range. */
  function TableIndex(cfg: Config, p: int, s: int): (z: int)
    requires 0 <= p && 0 <= s
    ensures 0 <= z <= 255
    ensures z < 255 ==> z * Pow2(cfg.mtableBits) <= p * s + RoundForShift(cfg.mtableBits)
    ensures p == 0 ==> z == 0
  {
    var t := p * s + RoundForShift(cfg.mtableBits);
    MulNonNeg(p, s);
    ShrNonNeg(t, cfg.mtableBits);
    DivFacts(t, Pow2(cfg.mtableBits));
    if p == 0 then
      ShrOfScaled(0, RoundForShift(cfg.mtableBits), cfg.mtableBits);
      Min(Shr(t, cfg.mtableBits), 255)
    else
      Min(Shr(t, cfg.mtableBits), 255)
  }

  /** A larger proxy never selects a smaller table index. */
  lemma TableIndexMonotone(cfg: Config, p: int, q: int, s: int)
    requires 0 <= p <= q && 0 <= s
    ensures TableIndex(cfg, p, s) <= TableIndex(cfg, q, s)
  {
    MulLeft(p, q, s + 1);
    assert p * s <= q * s by {
      if s > 0 {
        MulLeft(p, q, s);
      }
    }
    var rnd := RoundForShift(cfg.mtableBits);
    ShrMonotone(p * s + rnd, q * s + rnd, cfg.mtableBits);
  }

  /** The weight a and offset b of one pixel. */
  datatype Coeffs = Coeffs(a: int, b: int)

  /** calc_ab for one pixel, from its proxy p, its window sum sum1, the
      mtable entry s and one_by_x[n - 1]: a = x_by_xplus1[z] and
      b = ((SGRPROJ_SGR - a) * one_by_x[n - 1] * sum1 + rnd) >> RECIP_BITS.
      b uses the raw window sum, not the normalised one. */
  function PassCoeffs(cfg: Config, p: int, sum1: int, s: int, oneOverN: int): (co: Coeffs)
    requires ValidTables(cfg)
    requires 0 <= p && 0 <= sum1 && 0 <= s && 0 <= oneOverN
    ensures co.a == cfg.xByXPlus1[TableIndex(cfg, p, s)]
    ensures 0 <= co.a <= Sgr(cfg)
    ensures 0 <= co.b
  {
    var z := TableIndex(cfg, p, s);
    var a := cfg.xByXPlus1[z];
    var aComplement := Sgr(cfg) - a;
    var aCompOverN := aComplement * oneOverN;
    var bInt := aCompOverN * sum1;
    MulNonNeg(aComplement, oneOverN);
    MulNonNeg(aCompOverN, sum1);
    ShrNonNeg(bInt + RoundForShift(cfg.recipBits), cfg.recipBits);
    Coeffs(a, Shr(bInt + RoundForShift(cfg.recipBits), cfg.recipBits))
  }

  /** When a reaches SGRPROJ_SGR the pixel keeps no share of the window
      mean: its offset b is zero. */
  lemma FullWeightNoOffset(cfg: Config, p: int, sum1: int, s: int, oneOverN: int)
    requires ValidTables(cfg)
    requires 0 <= p && 0 <= sum1 && 0 <= s && 0 <= oneOverN
    requires PassCoeffs(cfg, p, sum1, s, oneOverN).a == Sgr(cfg)
    ensures PassCoeffs(cfg, p, sum1, s, oneOverN).b == 0
  {
    var rnd := RoundForShift(cfg.recipBits);
    assert (Sgr(cfg) - Sgr(cfg)) * oneOverN * sum1 == 0;
    ShrOfScaled(0, rnd, cfg.recipBits);
    assert Shr(0 * Pow2(cfg.recipBits) + rnd, cfg.recipBits) == 0;
  }

  /** For a fixed weight a, the offset b grows with the window sum. */
  lemma OffsetMonotone(cfg: Config, p: int, sum1: int, sum1': int, s: int, oneOverN: int)
    requires ValidTables(cfg)
    requires 0 <= p && 0 <= sum1 <= sum1' && 0 <= s && 0 <= oneOverN
    ensures PassCoeffs(cfg, p, sum1, s, oneOverN).b <= PassCoeffs(cfg, p, sum1', s, oneOverN).b
  {
    var a := PassCoeffs(cfg, p, sum1, s, oneOverN).a;
    var k := (Sgr(cfg) - a) * oneOverN;
    MulNonNeg(Sgr(cfg) - a, oneOverN);
    assert k * sum1 <= k * sum1' by {
      if k > 0 {
        MulLeft(sum1, sum1', k);
      }
    }
    ShrMonotone(k * sum1 + RoundForShift(cfg.recipBits), k * sum1' + RoundForShift(cfg.recipBits), cfg.recipBits);
  }

  /** The border-extended plane covers height + 2 * BORDER_VERT rows and
      width + 2 * BORDER_HORZ columns of unsigned samples; pixel (i, j) of
      the image is ext[BORDER_VERT + i][BORDER_HORZ + j]. */
  predicate ValidPlane(cfg: Config, ext: Plane, width: nat, height: nat)
  {
    NonNegative(ext, height + 2 * cfg.borderVert, width + 2 * cfg.borderHorz)
  }

  /** (cy, cx) is an integral-image cell that calc_ab fills: the image plus
      its one-pixel halo, i in [-1, height] and j in [-1, width]. */
  predicate InHalo(cfg: Config, width: nat, height: nat, cy: int, cx: int)
  {
    OriginY(cfg) - 1 <= cy <= OriginY(cfg) + height && OriginX(cfg) - 1 <= cx <= OriginX(cfg) + width
  }

  /** calc_ab's arithmetic for one pixel of a pass with radius r and
      regularisation index e, from its window sums: n = (2r + 1)^2,
      s = sgrproj_mtable[e - 1][n - 1], one_by_x[n - 1], then p, z, a, b. */
  function CoeffsFromSums(cfg: Config, sum1: int, sum2: int, bitDepth: nat, r: nat, e: nat): (co: Coeffs)
    requires ValidTables(cfg) && ValidPass(cfg, r, e)
    requires 0 <= sum1 && 0 <= sum2 && ComputeP(sum1, sum2, bitDepth, WindowSize(r)) >= 0
    ensures 0 <= co.a <= Sgr(cfg) && 0 <= co.b
  {
    var n := WindowSize(r);
    PassCoeffs(cfg, ComputeP(sum1, sum2, bitDepth, n), sum1, cfg.mtable[e - 1][n - 1], cfg.oneByX[n - 1])
  }

  /** The weights calc_ab computes for the pixel whose integral-image cell is
      (cy, cx), from the (2r + 1) x (2r + 1) window of ext around it. */
  function PixelCoeffs(cfg: Config, ext: Plane, width: nat, height: nat, bitDepth: nat, r: nat, e: nat,
                       cy: int, cx: int): (co: Coeffs)
    requires ValidTables(cfg) && ValidPass(cfg, r, e) && ValidPlane(cfg, ext, width, height)
    requires InHalo(cfg, width, height, cy, cx)
    ensures 0 <= co.a <= Sgr(cfg) && 0 <= co.b
  {
    HaloWindow(cfg, ext, width, height, r, cy, cx);
    var y0, y1, x0, x1 := cy - (r + 1), cy + r, cx - (r + 1), cx + r;
    var sum1, sum2 := RectSum(ext, y0, y1, x0, x1), RectSumSq(ext, y0, y1, x0, x1);
    HaloWindowFacts(cfg, ext, width, height, bitDepth, r, cy, cx, sum1, sum2);
    CoeffsFromSums(cfg, sum1, sum2, bitDepth, r, e)
  }

  /** The weights of row cy of the image and halo, from column OriginX - 1
      on. A lemma rather than a function, so that its caller sees only the
      ensures, and that fires only on a PixelCoeffs term: calc_ab's column
      loop then runs with every window sum folded. */
  lemma RowCoeffs(cfg: Config, ext: Plane, width: nat, height: nat, bitDepth: nat, r: nat, e: nat,
                  cy: int) returns (row: seq<Coeffs>)
    requires ValidTables(cfg) && ValidPass(cfg, r, e) && ValidPlane(cfg, ext, width, height)
    requires OriginY(cfg) - 1 <= cy <= OriginY(cfg) + height
    ensures |row| == width + 2
    ensures forall cx {:trigger PixelCoeffs(cfg, ext, width, height, bitDepth, r, e, cy, cx)} ::
              OriginX(cfg) - 1 <= cx <= OriginX(cfg) + width ==>
                row[cx - OriginX(cfg) + 1] == PixelCoeffs(cfg, ext, width, height, bitDepth, r, e, cy, cx)
  {
    row := seq(width + 2, k requires 0 <= k < width + 2 =>
      PixelCoeffs(cfg, ext, width, height, bitDepth, r, e, cy, OriginX(cfg) - 1 + k));
  }

  /** The integral images calc_ab reads: D of the samples, C of their
      squares, covering the extended plane. */
  ghost predicate IntegralInputs(cfg: Config, C: array2<int>, D: array2<int>, ext: Plane, width: nat, height: nat)
    reads C, D
  {
    && IsIntegralImage(D, ext, height + 2 * cfg.borderVert, width + 2 * cfg.borderHorz)
    && IsSquareIntegralImage(C, ext, height + 2 * cfg.borderVert, width + 2 * cfg.borderHorz)
  }

  /** calc_ab: fills A and B with the weight and offset of every pixel of
      the image and its one-pixel halo, which is what cross_sum reads;
      every cell outside the halo keeps its value. */
  method CalcAB(cfg: Config, A: array2<int>, B: array2<int>, C: array2<int>, D: array2<int>,
                width: nat, height: nat, eps: nat, bitDepth: nat, r: nat, ghost ext: Plane)
    requires ValidTables(cfg) && ValidPass(cfg, r, eps) && ValidPlane(cfg, ext, width, height)
    requires IntegralInputs(cfg, C, D, ext, width, height)
    requires A != B && A != C && A != D && B != C && B != D
    requires OriginY(cfg) + height < A.Length0 && OriginX(cfg) + width < A.Length1
    requires OriginY(cfg) + height < B.Length0 && OriginX(cfg) + width < B.Length1
    modifies A, B
    ensures forall cy, cx :: InHalo(cfg, width, height, cy, cx) ==>
              A[cy, cx] == PixelCoeffs(cfg, ext, width, height, bitDepth, r, eps, cy, cx).a
    ensures forall cy, cx :: InHalo(cfg, width, height, cy, cx) ==>
              B[cy, cx] == PixelCoeffs(cfg, ext, width, height, bitDepth, r, eps, cy, cx).b
    ensures forall y, x :: 0 <= y < A.Length0 && 0 <= x < A.Length1 && !InHalo(cfg, width, height, y, x) ==> A[y, x] == old(A[y, x])
    ensures forall y, x :: 0 <= y < B.Length0 && 0 <= x < B.Length1 && !InHalo(cfg, width, height, y, x) ==> B[y, x] == old(B[y, x])
  {
    var oy, ox := OriginY(cfg), OriginX(cfg);

    var i: int := -1;
    while i < height + 1
      invariant -1 <= i <= height + 1
      invariant forall cy, cx :: InHalo(cfg, width, height, cy, cx) && cy < oy + i ==>
                  var co := PixelCoeffs(cfg, ext, width, height, bitDepth, r, eps, cy, cx);
                  A[cy, cx] == co.a && B[cy, cx] == co.b
      invariant forall y, x :: 0 <= y < A.Length0 && 0 <= x < A.Length1 && !InHalo(cfg, width, height, y, x) ==> A[y, x] == old(A[y, x])
      invariant forall y, x :: 0 <= y < B.Length0 && 0 <= x < B.Length1 && !InHalo(cfg, width, height, y, x) ==> B[y, x] == old(B[y, x])
    {
      CalcABRow(cfg, A, B, C, D, width, height, eps, bitDepth, r, oy + i, ext);
      i := i + 1;
    }
  }

  /** One iteration of calc_ab's row loop: the weights of row cy of the
      image and halo, leaving every other row of A and B as it was. */
  method CalcABRow(cfg: Config, A: array2<int>, B: array2<int>, C: array2<int>, D: array2<int>,
                   width: nat, height: nat, eps: nat, bitDepth: nat, r: nat, cy: int, ghost ext: Plane)
    requires ValidTables(cfg) && ValidPass(cfg, r, eps) && ValidPlane(cfg, ext, width, height)
    requires IntegralInputs(cfg, C, D, ext, width, height)
    requires A != B && A != C && A != D && B != C && B != D
    requires OriginY(cfg) + height < A.Length0 && OriginX(cfg) + width < A.Length1
    requires OriginY(cfg) + height < B.Length0 && OriginX(cfg) + width < B.Length1
    requires OriginY(cfg) - 1 <= cy <= OriginY(cfg) + height
    modifies A, B
    ensures forall cx :: OriginX(cfg) - 1 <= cx <= OriginX(cfg) + width ==>
              var co := PixelCoeffs(cfg, ext, width, height, bitDepth, r, eps, cy, cx);
              A[cy, cx] == co.a && B[cy, cx] == co.b
    ensures forall y, x :: 0 <= y < A.Length0 && 0 <= x < A.Length1 && !InHalo(cfg, width, height, y, x) ==> A[y, x] == old(A[y, x])
    ensures forall y, x :: 0 <= y < B.Length0 && 0 <= x < B.Length1 && !InHalo(cfg, width, height, y, x) ==> B[y, x] == old(B[y, x])
    ensures forall y, x :: 0 <= y < A.Length0 && 0 <= x < A.Length1 && y != cy ==> A[y, x] == old(A[y, x])
    ensures forall y, x :: 0 <= y < B.Length0 && 0 <= x < B.Length1 && y != cy ==> B[y, x] == old(B[y, x])
  {
    var ox := OriginX(cfg);
    ghost var row := RowCoeffs(cfg, ext, width, height, bitDepth, r, eps, cy);
    var j: int := -1;
    while j < width + 1
      invariant -1 <= j <= width + 1
      invariant forall cx :: ox - 1 <= cx < ox + j ==>
                  A[cy, cx] == row[cx - ox + 1].a && B[cy, cx] == row[cx - ox + 1].b
      invariant forall y, x :: 0 <= y < A.Length0 && 0 <= x < A.Length1 && (y != cy || !InHalo(cfg, width, height, y, x)) ==> A[y, x] == old(A[y, x])
      invariant forall y, x :: 0 <= y < B.Length0 && 0 <= x < B.Length1 && (y != cy || !InHalo(cfg, width, height, y, x)) ==> B[y, x] == old(B[y, x])
    {
      CalcABPixel(cfg, A, B, C, D, width, height, eps, bitDepth, r, cy, ox + j, ext, row);
      j := j + 1;
    }
  }

  /** The body of calc_ab's column loop: A and B at (cy, cx) receive the
      pixel's weights and nothing else changes. */
  method CalcABPixel(cfg: Config, A: array2<int>, B: array2<int>, C: array2<int>, D: array2<int>,
                     width: nat, height: nat, eps: nat, bitDepth: nat, r: nat, cy: int, cx: int,
                     ghost ext: Plane, ghost row: seq<Coeffs>)
    requires ValidTables(cfg) && ValidPass(cfg, r, eps) && ValidPlane(cfg, ext, width, height)
    requires IntegralInputs(cfg, C, D, ext, width, height)
    requires A != B && A != C && A != D && B != C && B != D
    requires OriginY(cfg) + height < A.Length0 && OriginX(cfg) + width < A.Length1
    requires OriginY(cfg) + height < B.Length0 && OriginX(cfg) + width < B.Length1
    requires InHalo(cfg, width, height, cy, cx)
    requires |row| == width + 2
    requires forall x {:trigger PixelCoeffs(cfg, ext, width, height, bitDepth, r, eps, cy, x)} ::
               OriginX(cfg) - 1 <= x <= OriginX(cfg) + width ==>
                 row[x - OriginX(cfg) + 1] == PixelCoeffs(cfg, ext, width, height, bitDepth, r, eps, cy, x)
    modifies A, B
    ensures A[cy, cx] == row[cx - OriginX(cfg) + 1].a && B[cy, cx] == row[cx - OriginX(cfg) + 1].b
    ensures forall y, x :: 0 <= y < A.Length0 && 0 <= x < A.Length1 && (y != cy || x != cx) ==> A[y, x] == old(A[y, x])
    ensures forall y, x :: 0 <= y < B.Length0 && 0 <= x < B.Length1 && (y != cy || x != cx) ==> B[y, x] == old(B[y, x])
  {
    var co := PixelStep(cfg, C, D, width, height, bitDepth, r, eps, cy, cx, ext);
    A[cy, cx] := co.a;
    B[cy, cx] := co.b;
  }

  /** The window of radius r around a halo pixel lies inside the extended
      plane: this is what the assertion r + 1 <= min(border) guarantees. */
  lemma HaloWindow(cfg: Config, ext: Plane, width: nat, height: nat, r: nat, cy: int, cx: int)
    requires ValidPlane(cfg, ext, width, height) && r + 1 <= Min(cfg.borderVert, cfg.borderHorz)
    requires InHalo(cfg, width, height, cy, cx)
    ensures r + 1 <= cy && cy + r <= height + 2 * cfg.borderVert
    ensures r + 1 <= cx && cx + r <= width + 2 * cfg.borderHorz
  {
  }

  /** The window sums of a halo pixel are non-negative and so is its proxy. */
  lemma HaloWindowFacts(cfg: Config, ext: Plane, width: nat, height: nat, bitDepth: nat, r: nat,
                        cy: int, cx: int, sum1: int, sum2: int)
    requires ValidPlane(cfg, ext, width, height) && r + 1 <= Min(cfg.borderVert, cfg.borderHorz)
    requires InHalo(cfg, width, height, cy, cx)
    requires r + 1 <= cy && r + 1 <= cx
    requires sum1 == RectSum(ext, cy - (r + 1), cy + r, cx - (r + 1), cx + r)
    requires sum2 == RectSumSq(ext, cy - (r + 1), cy + r, cx - (r + 1), cx + r)
    ensures 0 <= sum1 && 0 <= sum2 && ComputeP(sum1, sum2, bitDepth, WindowSize(r)) >= 0
  {
    HaloWindow(cfg, ext, width, height, r, cy, cx);
    WindowPNonNeg(ext, height + 2 * cfg.borderVert, width + 2 * cfg.borderHorz,
                  cy - (r + 1), cy + r, cx - (r + 1), cx + r, bitDepth, r, sum1, sum2);
  }

  /** The body of calc_ab's loops for one pixel: the two window sums by
      boxsum_from_ii, the proxy, and the weights. */
  method PixelStep(cfg: Config, C: array2<int>, D: array2<int>, width: nat, height: nat,
                   bitDepth: nat, r: nat, eps: nat, cy: int, cx: int, ghost ext: Plane)
    returns (co: Coeffs)
    requires ValidTables(cfg) && ValidPass(cfg, r, eps) && ValidPlane(cfg, ext, width, height)
    requires IntegralInputs(cfg, C, D, ext, width, height)
    requires InHalo(cfg, width, height, cy, cx)
    ensures co == PixelCoeffs(cfg, ext, width, height, bitDepth, r, eps, cy, cx)
  {
    var sum1, sum2 := WindowSums(cfg, C, D, width, height, r, cy, cx, ext);
    HaloWindowFacts(cfg, ext, width, height, bitDepth, r, cy, cx, sum1, sum2);
    co := CoeffsFromSums(cfg, sum1, sum2, bitDepth, r, eps);
  }

  /** pre_sum1 and pre_sum2 of calc_ab: the window sums of the samples and
      of their squares, read from D and C by boxsum_from_ii. */
  method WindowSums(cfg: Config, C: array2<int>, D: array2<int>, width: nat, height: nat,
                    r: nat, cy: int, cx: int, ghost ext: Plane)
    returns (sum1: int, sum2: int)
    requires ValidPlane(cfg, ext, width, height) && r + 1 <= Min(cfg.borderVert, cfg.borderHorz)
    requires IntegralInputs(cfg, C, D, ext, width, height)
    requires InHalo(cfg, width, height, cy, cx)
    ensures r + 1 <= cy && r + 1 <= cx
    ensures sum1 == RectSum(ext, cy - (r + 1), cy + r, cx - (r + 1), cx + r)
    ensures sum2 == RectSumSq(ext, cy - (r + 1), cy + r, cx - (r + 1), cx + r)
  {
    var rows, cols := height + 2 * cfg.borderVert, width + 2 * cfg.borderHorz;
    BoxSumExact(D, ext, rows, cols, cy, cx, r);
    BoxSumExactSq(C, ext, rows, cols, cy, cx, r);
    sum1 := BoxSumFromIi(D, cy, cx, r);
    sum2 := BoxSumFromIi(C, cy, cx, r);
  }
}
