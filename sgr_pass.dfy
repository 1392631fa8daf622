// The arithmetic of final_filter and cross_sum in
// av1/common/x86/selfguided_avx2.c as functions of values: the weighted 3 x 3
// cross sum, the rounding shift that blends a weight with a sample, and the
// value one self-guided pass writes for a pixel.

module SgrPass {
  import opened FixedPoint
  import opened Planes
  import opened SgrConfig
  import opened SgrCoefficients

  /** cross_sum on one 3 x 3 neighbourhood: the four corners weigh 3 and the
      centre and its four edge neighbours weigh 4, 32 in all. The source
      computes it as ((fours + threes) << 2) - threes. */
  function CrossSum(xtl: int, xt: int, xtr: int, xl: int, x: int, xr: int, xbl: int, xb: int, xbr: int): (c: int)
    ensures c == 4 * (xl + xt + xr + xb + x) + 3 * (xtl + xtr + xbr + xbl)
    ensures xtl == xt == xtr == xl == x == xr == xbl == xb == xbr ==> c == 32 * x
  {
    var fours := xl + (xt + (xr + (xb + x)));
    var threes := xtl + (xtr + (xbr + xbl));
    (fours + threes) * 4 - threes
  }

  /** The weights total 32, so a cross sum of values in [lo, hi] lies in
      [32 lo, 32 hi]. */
  lemma CrossSumBounds(lo: int, hi: int, xtl: int, xt: int, xtr: int, xl: int, x: int, xr: int,
                       xbl: int, xb: int, xbr: int)
    requires lo <= xtl <= hi && lo <= xt <= hi && lo <= xtr <= hi
    requires lo <= xl <= hi && lo <= x <= hi && lo <= xr <= hi
    requires lo <= xbl <= hi && lo <= xb <= hi && lo <= xbr <= hi
    ensures 32 * lo <= CrossSum(xtl, xt, xtr, xl, x, xr, xbl, xb, xbr) <= 32 * hi
  {
  }

  /** cross_sum(buf, stride) with buf pointing at cell (y, x). */
  function CrossSumAt(buf: array2<int>, y: int, x: int): int
    reads buf
    requires 1 <= y < buf.Length0 - 1 && 1 <= x < buf.Length1 - 1
  {
    CrossSum(buf[y - 1, x - 1], buf[y - 1, x], buf[y - 1, x + 1],
             buf[y, x - 1], buf[y, x], buf[y, x + 1],
             buf[y + 1, x - 1], buf[y + 1, x], buf[y + 1, x + 1])
  }

  /** SGRPROJ_SGR_BITS + nb - SGRPROJ_RST_BITS: the cross sums carry
      sgrBits + 5 fractional bits and the output keeps rstBits. */
  function FilterShift(cfg: Config): nat
    requires cfg.rstBits <= cfg.sgrBits + NB
  {
    cfg.sgrBits + NB - cfg.rstBits
  }

  /** final_filter for one pixel: (a * src + b), rounded and shifted down to
      rstBits fractional bits. */
  function FinalPixel(cfg: Config, a: int, b: int, src: int): int
    requires cfg.rstBits <= cfg.sgrBits + NB
  {
    Shr(a * src + b + RoundForShift(FilterShift(cfg)), FilterShift(cfg))
  }

  lemma Pow2Five()
    ensures Pow2(NB) == 32
  {
    assert Pow2(1) == 2;
    assert Pow2(2) == 4;
    assert Pow2(3) == 8;
    assert Pow2(4) == 16;
  }

  /** When every weight in the cross is full (a = SGRPROJ_SGR, b = 0) the
      filter returns the source pixel scaled to rstBits fractional bits. */
  lemma {:induction false} FinalPixelFullWeight(cfg: Config, src: int)
    requires cfg.rstBits <= cfg.sgrBits + NB
    ensures FinalPixel(cfg, 32 * Sgr(cfg), 0, src) == src * Pow2(cfg.rstBits)
  {
    var sh := FilterShift(cfg);
    Pow2Five();
    Pow2Add(cfg.sgrBits, NB);
    Pow2Add(sh, cfg.rstBits);
    Regroup(32 * Sgr(cfg), Pow2(sh), Pow2(cfg.rstBits), src);
    ShrOfScaled(src * Pow2(cfg.rstBits), RoundForShift(sh), sh);
  }

  lemma Regroup(w: int, d: int, k: int, src: int)
    requires w == d * k
    ensures w * src + 0 == (src * k) * d
  {
  }

  /** With a non-negative weight the output rises with the source pixel and
      with the offset. */
  lemma FinalPixelMonotone(cfg: Config, a: int, b: int, b': int, src: int, src': int)
    requires cfg.rstBits <= cfg.sgrBits + NB
    requires 0 <= a && b <= b' && src <= src'
    ensures FinalPixel(cfg, a, b, src) <= FinalPixel(cfg, a, b', src')
  {
    assert a * src <= a * src' by {
      if a > 0 {
        MulLeft(src, src', a);
      }
    }
    var rnd := RoundForShift(FilterShift(cfg));
    ShrMonotone(a * src + b + rnd, a * src' + b' + rnd, FilterShift(cfg));
  }

  /** Non-negative weights, offset and pixel give a non-negative output. */
  lemma FinalPixelNonNeg(cfg: Config, a: int, b: int, src: int)
    requires cfg.rstBits <= cfg.sgrBits + NB
    requires 0 <= a && 0 <= b && 0 <= src
    ensures 0 <= FinalPixel(cfg, a, b, src)
  {
    MulNonNeg(a, src);
    ShrNonNeg(a * src + b + RoundForShift(FilterShift(cfg)), FilterShift(cfg));
  }

  /** The weights calc_ab leaves for the halo of a plane of width x height
      pixels: w[y][x] belongs to the pixel whose buffer cell is
      (OriginY - 1 + y, OriginX - 1 + x), so image pixel (i, j) sits at
      w[i + 1][j + 1] and its 3 x 3 cross at rows i .. i + 2, columns
      j .. j + 2. */
  type WeightPlane = seq<seq<Coeffs>>

  predicate WeightsShape(w: WeightPlane, width: nat, height: nat)
  {
    |w| == height + 2 && forall y :: 0 <= y < |w| ==> |w[y]| == width + 2
  }

  /** w holds the weights of one pass with radius r and regularisation
      index e at every halo pixel. */
  ghost predicate IsWeightPlane(cfg: Config, ext: Plane, width: nat, height: nat, bitDepth: nat, r: nat, e: nat,
                                w: WeightPlane)
    requires ValidTables(cfg) && ValidPass(cfg, r, e) && ValidPlane(cfg, ext, width, height)
  {
    && WeightsShape(w, width, height)
    && forall cy, cx {:trigger PixelCoeffs(cfg, ext, width, height, bitDepth, r, e, cy, cx)} ::
         InHalo(cfg, width, height, cy, cx) ==>
           w[cy - OriginY(cfg) + 1][cx - OriginX(cfg) + 1] == PixelCoeffs(cfg, ext, width, height, bitDepth, r, e, cy, cx)
  }

  /** Every weight a lies in [0, SGRPROJ_SGR] and every offset b is
      non-negative. */
  predicate WeightsInRange(cfg: Config, w: WeightPlane)
  {
    forall y, x :: 0 <= y < |w| && 0 <= x < |w[y]| ==> 0 <= w[y][x].a <= Sgr(cfg) && 0 <= w[y][x].b
  }

  /** The weights of a weight plane are in range. */
  lemma WeightPlaneInRange(cfg: Config, ext: Plane, width: nat, height: nat, bitDepth: nat, r: nat, e: nat,
                           w: WeightPlane)
    requires ValidTables(cfg) && ValidPass(cfg, r, e) && ValidPlane(cfg, ext, width, height)
    requires IsWeightPlane(cfg, ext, width, height, bitDepth, r, e, w)
    ensures WeightsInRange(cfg, w)
  {
    forall y, x | 0 <= y < |w| && 0 <= x < |w[y]|
      ensures 0 <= w[y][x].a <= Sgr(cfg) && 0 <= w[y][x].b
    {
      var cy, cx := OriginY(cfg) - 1 + y, OriginX(cfg) - 1 + x;
      assert InHalo(cfg, width, height, cy, cx);
      assert w[y][x] == PixelCoeffs(cfg, ext, width, height, bitDepth, r, e, cy, cx);
    }
  }

  /** The cross sums of the weights and of the offsets around image pixel
      (i, j). */
  function CrossWeights(w: WeightPlane, width: nat, height: nat, i: int, j: int): (co: Coeffs)
    requires WeightsShape(w, width, height)
    requires 0 <= i < height && 0 <= j < width
  {
    Coeffs(CrossSum(w[i][j].a, w[i][j + 1].a, w[i][j + 2].a,
                    w[i + 1][j].a, w[i + 1][j + 1].a, w[i + 1][j + 2].a,
                    w[i + 2][j].a, w[i + 2][j + 1].a, w[i + 2][j + 2].a),
           CrossSum(w[i][j].b, w[i][j + 1].b, w[i][j + 2].b,
                    w[i + 1][j].b, w[i + 1][j + 1].b, w[i + 1][j + 2].b,
                    w[i + 2][j].b, w[i + 2][j + 1].b, w[i + 2][j + 2].b))
  }

  /** With weights in range, the crossed weight lies in [0, 32 SGRPROJ_SGR]
      and the crossed offset is non-negative. */
  lemma CrossWeightsInRange(cfg: Config, w: WeightPlane, width: nat, height: nat, i: int, j: int)
    requires WeightsShape(w, width, height) && WeightsInRange(cfg, w)
    requires 0 <= i < height && 0 <= j < width
    ensures 0 <= CrossWeights(w, width, height, i, j).a <= 32 * Sgr(cfg)
    ensures 0 <= CrossWeights(w, width, height, i, j).b
  {
    CrossSumBounds(0, Sgr(cfg), w[i][j].a, w[i][j + 1].a, w[i][j + 2].a,
                   w[i + 1][j].a, w[i + 1][j + 1].a, w[i + 1][j + 2].a,
                   w[i + 2][j].a, w[i + 2][j + 1].a, w[i + 2][j + 2].a);
    var b := w[i][j].b + w[i][j + 1].b + w[i][j + 2].b + w[i + 1][j].b + w[i + 1][j + 1].b
             + w[i + 1][j + 2].b + w[i + 2][j].b + w[i + 2][j + 1].b + w[i + 2][j + 2].b;
    CrossSumBounds(0, b, w[i][j].b, w[i][j + 1].b, w[i][j + 2].b,
                   w[i + 1][j].b, w[i + 1][j + 1].b, w[i + 1][j + 2].b,
                   w[i + 2][j].b, w[i + 2][j + 1].b, w[i + 2][j + 2].b);
  }

  /** The value a self-guided pass with weight plane w writes for image
      pixel (i, j): final_filter over the crossed weights, applied to the
      pixel itself. */
  function PassOutput(cfg: Config, w: WeightPlane, ext: Plane, width: nat, height: nat, i: int, j: int): int
    requires ValidTables(cfg) && Spans(ext, height + 2 * cfg.borderVert, width + 2 * cfg.borderHorz)
    requires WeightsShape(w, width, height)
    requires 0 <= i < height && 0 <= j < width
  {
    var co := CrossWeights(w, width, height, i, j);
    FinalPixel(cfg, co.a, co.b, ext[cfg.borderVert + i][cfg.borderHorz + j])
  }

  /** Weights in range and non-negative samples give a non-negative output. */
  lemma PassOutputNonNeg(cfg: Config, w: WeightPlane, ext: Plane, width: nat, height: nat, i: int, j: int)
    requires ValidTables(cfg) && Spans(ext, height + 2 * cfg.borderVert, width + 2 * cfg.borderHorz)
    requires WeightsShape(w, width, height) && WeightsInRange(cfg, w)
    requires NonNegative(ext, height + 2 * cfg.borderVert, width + 2 * cfg.borderHorz)
    requires 0 <= i < height && 0 <= j < width
    ensures 0 <= PassOutput(cfg, w, ext, width, height, i, j)
  {
    CrossWeightsInRange(cfg, w, width, height, i, j);
    var co := CrossWeights(w, width, height, i, j);
    FinalPixelNonNeg(cfg, co.a, co.b, ext[cfg.borderVert + i][cfg.borderHorz + j]);
  }

  /** final_filter's value at image pixel (i, j), read from the A and B
      buffers and the source plane. */
  function FilterAt(cfg: Config, A: array2<int>, B: array2<int>, ext: Plane, width: nat, height: nat,
                    i: int, j: int): int
    reads A, B
    requires ValidTables(cfg) && Spans(ext, height + 2 * cfg.borderVert, width + 2 * cfg.borderHorz)
    requires OriginY(cfg) + height < A.Length0 && OriginX(cfg) + width < A.Length1
    requires OriginY(cfg) + height < B.Length0 && OriginX(cfg) + width < B.Length1
    requires 0 <= i < height && 0 <= j < width
  {
    var cy, cx := OriginY(cfg) + i, OriginX(cfg) + j;
    FinalPixel(cfg, CrossSumAt(A, cy, cx), CrossSumAt(B, cy, cx), ext[cfg.borderVert + i][cfg.borderHorz + j])
  }

  /** The A and B buffers hold the weights and offsets of w over the halo. */
  predicate BuffersHold(cfg: Config, A: array2<int>, B: array2<int>, w: WeightPlane, width: nat, height: nat)
    reads A, B
    requires WeightsShape(w, width, height)
  {
    && OriginY(cfg) + height < A.Length0 && OriginX(cfg) + width < A.Length1
    && OriginY(cfg) + height < B.Length0 && OriginX(cfg) + width < B.Length1
    && forall y, x :: 0 <= y < height + 2 && 0 <= x < width + 2 ==>
         A[OriginY(cfg) - 1 + y, OriginX(cfg) - 1 + x] == w[y][x].a
         && B[OriginY(cfg) - 1 + y, OriginX(cfg) - 1 + x] == w[y][x].b
  }

  /** Over buffers that hold a weight plane, final_filter computes the pass
      output of that plane. */
  lemma FilterAtIsPassOutput(cfg: Config, A: array2<int>, B: array2<int>, w: WeightPlane, ext: Plane,
                             width: nat, height: nat, i: int, j: int)
    requires ValidTables(cfg) && Spans(ext, height + 2 * cfg.borderVert, width + 2 * cfg.borderHorz)
    requires WeightsShape(w, width, height) && BuffersHold(cfg, A, B, w, width, height)
    requires 0 <= i < height && 0 <= j < width
    ensures FilterAt(cfg, A, B, ext, width, height, i, j) == PassOutput(cfg, w, ext, width, height, i, j)
  {
  }
}
