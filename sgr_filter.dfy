// The second half of a self-guided pass and the pass driver: final_filter
// and av1_selfguided_restoration_avx2 in av1/common/x86/selfguided_avx2.c,
// one pixel at a time.

module SgrFilter {
  import opened FixedPoint
  import opened Planes
  import opened SgrConfig
  import opened IntegralImage
  import opened SgrCoefficients
  import opened SgrPass

  /** The weights and offsets the A and B buffers hold over the halo. */
  lemma WeightsOfBuffers(cfg: Config, A: array2<int>, B: array2<int>, width: nat, height: nat)
    returns (w: WeightPlane)
    requires OriginY(cfg) + height < A.Length0 && OriginX(cfg) + width < A.Length1
    requires OriginY(cfg) + height < B.Length0 && OriginX(cfg) + width < B.Length1
    ensures WeightsShape(w, width, height) && BuffersHold(cfg, A, B, w, width, height)
  {
    var oy, ox := OriginY(cfg), OriginX(cfg);
    w := seq(height + 2, y requires 0 <= y < height + 2 reads A, B =>
           seq(width + 2, x requires 0 <= x < width + 2 reads A, B =>
             Coeffs(A[oy - 1 + y, ox - 1 + x], B[oy - 1 + y, ox - 1 + x])));
  }

  /** After calc_ab, the plane the A and B buffers hold is the weight plane
      of the pass. */
  lemma CalcABHoldsWeights(cfg: Config, A: array2<int>, B: array2<int>, ext: Plane, width: nat, height: nat,
                           bitDepth: nat, r: nat, e: nat, w: WeightPlane)
    requires ValidTables(cfg) && ValidPass(cfg, r, e) && ValidPlane(cfg, ext, width, height)
    requires WeightsShape(w, width, height) && BuffersHold(cfg, A, B, w, width, height)
    requires forall cy, cx :: InHalo(cfg, width, height, cy, cx) ==>
               A[cy, cx] == PixelCoeffs(cfg, ext, width, height, bitDepth, r, e, cy, cx).a
    requires forall cy, cx :: InHalo(cfg, width, height, cy, cx) ==>
               B[cy, cx] == PixelCoeffs(cfg, ext, width, height, bitDepth, r, e, cy, cx).b
    ensures IsWeightPlane(cfg, ext, width, height, bitDepth, r, e, w)
  {
    forall cy, cx | InHalo(cfg, width, height, cy, cx)
      ensures w[cy - OriginY(cfg) + 1][cx - OriginX(cfg) + 1] == PixelCoeffs(cfg, ext, width, height, bitDepth, r, e, cy, cx)
    {
      var y, x := cy - OriginY(cfg) + 1, cx - OriginX(cfg) + 1;
      assert A[OriginY(cfg) - 1 + y, OriginX(cfg) - 1 + x] == w[y][x].a;
      assert B[OriginY(cfg) - 1 + y, OriginX(cfg) - 1 + x] == w[y][x].b;
    }
  }

  /** final_filter: every image pixel of dst receives the filtered value. */
  method FinalFilter(cfg: Config, dst: array2<int>, A: array2<int>, B: array2<int>, ext: Plane,
                     width: nat, height: nat)
    requires ValidTables(cfg) && Spans(ext, height + 2 * cfg.borderVert, width + 2 * cfg.borderHorz)
    requires dst != A && dst != B
    requires dst.Length0 == height && dst.Length1 == width
    requires OriginY(cfg) + height < A.Length0 && OriginX(cfg) + width < A.Length1
    requires OriginY(cfg) + height < B.Length0 && OriginX(cfg) + width < B.Length1
    modifies dst
    ensures forall i, j :: 0 <= i < height && 0 <= j < width ==>
              dst[i, j] == FilterAt(cfg, A, B, ext, width, height, i, j)
  {
    var i := 0;
    while i < height
      invariant 0 <= i <= height
      invariant forall y, x :: 0 <= y < i && 0 <= x < width ==>
                  dst[y, x] == FilterAt(cfg, A, B, ext, width, height, y, x)
    {
      FinalFilterRow(cfg, dst, A, B, ext, width, height, i);
      i := i + 1;
    }
  }

  /** One row of final_filter: row i of dst is filtered and the other rows
      keep their values. */
  method FinalFilterRow(cfg: Config, dst: array2<int>, A: array2<int>, B: array2<int>, ext: Plane,
                        width: nat, height: nat, i: int)
    requires ValidTables(cfg) && Spans(ext, height + 2 * cfg.borderVert, width + 2 * cfg.borderHorz)
    requires dst != A && dst != B
    requires dst.Length0 == height && dst.Length1 == width
    requires OriginY(cfg) + height < A.Length0 && OriginX(cfg) + width < A.Length1
    requires OriginY(cfg) + height < B.Length0 && OriginX(cfg) + width < B.Length1
    requires 0 <= i < height
    modifies dst
    ensures forall x :: 0 <= x < width ==> dst[i, x] == FilterAt(cfg, A, B, ext, width, height, i, x)
    ensures forall y, x :: 0 <= y < height && 0 <= x < width && y != i ==> dst[y, x] == old(dst[y, x])
  {
    var j := 0;
    while j < width
      invariant 0 <= j <= width
      invariant forall x :: 0 <= x < j ==> dst[i, x] == FilterAt(cfg, A, B, ext, width, height, i, x)
      invariant forall y, x :: 0 <= y < height && 0 <= x < width && y != i ==> dst[y, x] == old(dst[y, x])
    {
      dst[i, j] := FilterAt(cfg, A, B, ext, width, height, i, j);
      j := j + 1;
    }
  }

  /** flt holds the output of the pass with radius r and regularisation
      index e, whose weight plane is w. */
  ghost predicate PassResult(cfg: Config, ext: Plane, width: nat, height: nat, bitDepth: nat, r: nat, e: nat,
                             w: WeightPlane, flt: array2<int>)
    reads flt
    requires ValidTables(cfg) && ValidPass(cfg, r, e) && ValidPlane(cfg, ext, width, height)
  {
    && IsWeightPlane(cfg, ext, width, height, bitDepth, r, e, w) && WeightsInRange(cfg, w)
    && flt.Length0 == height && flt.Length1 == width
    && forall i, j :: 0 <= i < height && 0 <= j < width ==> flt[i, j] == PassOutput(cfg, w, ext, width, height, i, j)
  }

  /** One iteration of the pass loop of av1_selfguided_restoration_avx2:
      calc_ab, then final_filter into flt, which ends up holding the pass
      output of the pass's weight plane w. */
  method RunPass(cfg: Config, A: array2<int>, B: array2<int>, C: array2<int>, D: array2<int>, flt: array2<int>,
                 ext: Plane, width: nat, height: nat, bitDepth: nat, r: nat, e: nat)
    returns (ghost w: WeightPlane)
    requires ValidTables(cfg) && ValidPass(cfg, r, e) && ValidPlane(cfg, ext, width, height)
    requires IntegralInputs(cfg, C, D, ext, width, height)
    requires A != B && A != C && A != D && B != C && B != D
    requires flt != A && flt != B && flt != C && flt != D
    requires OriginY(cfg) + height < A.Length0 && OriginX(cfg) + width < A.Length1
    requires OriginY(cfg) + height < B.Length0 && OriginX(cfg) + width < B.Length1
    requires flt.Length0 == height && flt.Length1 == width
    modifies A, B, flt
    ensures PassResult(cfg, ext, width, height, bitDepth, r, e, w, flt)
  {
    CalcAB(cfg, A, B, C, D, width, height, e, bitDepth, r, ext);
    w := WeightsOfBuffers(cfg, A, B, width, height);
    CalcABHoldsWeights(cfg, A, B, ext, width, height, bitDepth, r, e, w);
    WeightPlaneInRange(cfg, ext, width, height, bitDepth, r, e, w);
    FinalFilter(cfg, flt, A, B, ext, width, height);
    forall i, j | 0 <= i < height && 0 <= j < width
      ensures flt[i, j] == PassOutput(cfg, w, ext, width, height, i, j)
    {
      FilterAtIsPassOutput(cfg, A, B, w, ext, width, height, i, j);
    }
  }

  /** av1_selfguided_restoration_avx2: the integral images of the extended
      plane are built once, then each of the two passes of the parameter set
      writes its output plane, flt1 for (r1, e1) and flt2 for (r2, e2). The
      plane must be readable up to the next multiple of 8 columns, since
      integral_images reads whole chunks. */
  method SelfGuidedRestoration(cfg: Config, ext: Plane, width: nat, height: nat, ps: SgrParamSet,
                               bitDepth: nat, flt1: array2<int>, flt2: array2<int>)
    returns (ghost w1: WeightPlane, ghost w2: WeightPlane)
    requires ValidTables(cfg) && ValidParams(cfg, ps) && ValidPlane(cfg, ext, width, height)
    requires Spans(ext, height + 2 * cfg.borderVert, RoundUp8(width + 2 * cfg.borderHorz))
    requires flt1 != flt2
    requires flt1.Length0 == height && flt1.Length1 == width
    requires flt2.Length0 == height && flt2.Length1 == width
    modifies flt1, flt2
    ensures PassResult(cfg, ext, width, height, bitDepth, ps.r1, ps.e1, w1, flt1)
    ensures PassResult(cfg, ext, width, height, bitDepth, ps.r2, ps.e2, w2, flt2)
  {
    var widthExt := width + 2 * cfg.borderHorz;
    var heightExt := height + 2 * cfg.borderVert;
    var w8 := RoundUp8(widthExt);
    var A := new int[heightExt + 1, w8 + 1]((y, x) => 0);
    var B := new int[heightExt + 1, w8 + 1]((y, x) => 0);
    var C := new int[heightExt + 1, w8 + 1]((y, x) => 0);
    var D := new int[heightExt + 1, w8 + 1]((y, x) => 0);

    // C holds the sums of squares and D the plain sums.
    IntegralImages(ext, widthExt, heightExt, C, D);
    IntegralImageNarrow(D, ext, heightExt, w8, widthExt);
    IntegralImageNarrow(C, ext, heightExt, w8, widthExt);

    w1, w2 := [], [];
    var pass := 0;
    while pass < 2
      invariant 0 <= pass <= 2
      invariant IntegralInputs(cfg, C, D, ext, width, height)
      invariant pass >= 1 ==> PassResult(cfg, ext, width, height, bitDepth, ps.r1, ps.e1, w1, flt1)
      invariant pass >= 2 ==> PassResult(cfg, ext, width, height, bitDepth, ps.r2, ps.e2, w2, flt2)
    {
      // r, e and flt are r1, e1 and flt1 in the first pass and r2, e2 and
      // flt2 in the second.
      if pass == 0 {
        w1 := RunPass(cfg, A, B, C, D, flt1, ext, width, height, bitDepth, ps.r1, ps.e1);
      } else {
        w2 := RunPass(cfg, A, B, C, D, flt2, ext, width, height, bitDepth, ps.r2, ps.e2);
      }
      pass := pass + 1;
    }
  }
}
