// apply_selfguided_restoration_avx2 in av1/common/x86/selfguided_avx2.c:
// run both self-guided passes on a tile, blend their outputs with the
// source through the projection weights xq, and pack the result back to
// pixels, one pixel at a time.

module SgrApply {
  import opened FixedPoint
  import opened Planes
  import opened SgrConfig
  import opened IntegralImage
  import opened SgrCoefficients
  import opened SgrPass
  import opened SgrFilter

  /** The projection of one pixel: with u = src << rstBits,
      v = xq0 (f1 - u) + xq1 (f2 - u) + (u << prjBits), and the output is v
      rounded and shifted down by prjBits + rstBits. */
  function ProjectPixel(cfg: Config, xq0: int, xq1: int, src: int, f1: int, f2: int): int
  {
    var u := src * Pow2(cfg.rstBits);
    var v := xq0 * (f1 - u) + xq1 * (f2 - u) + u * Pow2(cfg.prjBits);
    var sh := cfg.prjBits + cfg.rstBits;
    Shr(v + RoundForShift(sh), sh)
  }

  /** The projection is the source pixel plus the rounded weighted
      correction the two filters propose. */
  lemma {:induction false} ProjectIsSourcePlusCorrection(cfg: Config, xq0: int, xq1: int, src: int, f1: int, f2: int)
    ensures var u := src * Pow2(cfg.rstBits);
            var sh := cfg.prjBits + cfg.rstBits;
            ProjectPixel(cfg, xq0, xq1, src, f1, f2)
              == src + Shr(xq0 * (f1 - u) + xq1 * (f2 - u) + RoundForShift(sh), sh)
  {
    var u := src * Pow2(cfg.rstBits);
    var sh := cfg.prjBits + cfg.rstBits;
    var x := xq0 * (f1 - u) + xq1 * (f2 - u);
    ScaleTwice(src, cfg.rstBits, cfg.prjBits);
    ShrAddMultiple(src, x + RoundForShift(sh), sh);
  }

  /** Scaling by 2^a and then by 2^b is scaling by 2^(b + a). */
  lemma ScaleTwice(v: int, a: nat, b: nat)
    ensures (v * Pow2(a)) * Pow2(b) == v * Pow2(b + a)
  {
    Pow2Add(b, a);
    assert Pow2(b + a) == Pow2(a) * Pow2(b);
  }

  /** When each pass either has weight zero or returns the source pixel
      unchanged (at rstBits fractional bits), the projection returns the
      source pixel; in particular xq0 = xq1 = 0 leaves the pixel alone. */
  lemma ProjectKeepsSource(cfg: Config, xq0: int, xq1: int, src: int, f1: int, f2: int)
    requires xq0 == 0 || f1 == src * Pow2(cfg.rstBits)
    requires xq1 == 0 || f2 == src * Pow2(cfg.rstBits)
    ensures ProjectPixel(cfg, xq0, xq1, src, f1, f2) == src
  {
    var u := src * Pow2(cfg.rstBits);
    var sh := cfg.prjBits + cfg.rstBits;
    ProjectIsSourcePlusCorrection(cfg, xq0, xq1, src, f1, f2);
    NoCorrection(xq0, xq1, f1, f2, u);
    ShrSmall(RoundForShift(sh), sh);
  }

  lemma NoCorrection(xq0: int, xq1: int, f1: int, f2: int, u: int)
    requires xq0 == 0 || f1 == u
    requires xq1 == 0 || f2 == u
    ensures xq0 * (f1 - u) + xq1 * (f2 - u) == 0
  {
  }

  /** The 8-bit store: _mm256_packs_epi32 saturates to signed 16 bits, then
      _mm256_packus_epi16 saturates to unsigned 8 bits; together they clamp
      to [0, 255]. */
  function PackLowbd(w: int): (p: int)
    ensures p == Clamp(w, 0, 255)
  {
    Clamp(Clamp(w, -32768, 32767), 0, 255)
  }

  /** A 16-bit lane read as a signed value, and a signed value stored back
      into 16 bits. */
  function Signed16(x: int): (s: int)
    requires 0 <= x < 65536
    ensures -32768 <= s < 32768 && (s == x || s == x - 65536)
  {
    if x >= 32768 then x - 65536 else x
  }

  function Unsigned16(s: int): (x: int)
    requires -32768 <= s < 32768
    ensures 0 <= x < 65536 && (x == s || x == s + 65536)
  {
    if s < 0 then s + 65536 else s
  }

  /** The high bit-depth store: _mm256_packus_epi32 saturates to unsigned 16
      bits, then _mm256_min_epi16 takes the SIGNED minimum with
      (1 << bitDepth) - 1 (set with _mm256_set1_epi16, so kept to 16 bits). */
  function PackHighbd(w: int, bitDepth: nat): (p: int)
    ensures 0 <= p < 65536
  {
    var sat := Clamp(w, 0, 65535);
    var maxv := (Pow2(bitDepth) - 1) % 65536;
    Unsigned16(Min(Signed16(sat), Signed16(maxv)))
  }

  /** For values below 2^15 and bit depths up to 15 the high bit-depth store
      clamps to [0, 2^bitDepth - 1]. */
  lemma PackHighbdClamps(w: int, bitDepth: nat)
    requires 1 <= bitDepth <= 15 && w < 32768
    ensures PackHighbd(w, bitDepth) == Clamp(w, 0, Pow2(bitDepth) - 1)
  {
    Pow2Monotone(bitDepth, 15);
    Pow2Fifteen();
    PackBelowSignBit(w, Pow2(bitDepth) - 1);
  }

  /** Below the sign bit of 16 bits the signed minimum is an ordinary
      minimum, so the store clamps to [0, m]. */
  lemma PackBelowSignBit(w: int, m: int)
    requires 0 <= m < 32768 && w < 32768
    ensures Unsigned16(Min(Signed16(Clamp(w, 0, 65535)), Signed16(m % 65536))) == Clamp(w, 0, m)
  {
    assert m % 65536 == m;
  }

  lemma Pow2Ten()
    ensures Pow2(10) == 1024
  {
    Pow2Five();
    Pow2Add(NB, NB);
  }

  lemma Pow2Fifteen()
    ensures Pow2(15) == 32768
  {
    Pow2Five();
    Pow2Ten();
    Pow2Add(10, NB);
  }

  /** The signed minimum lets every value of 2^15 or more through
      unclamped: at bit depths up to 15, such a value is read as negative
      and so is below any mask. At 10 bits, 40000 is stored as 40000 rather
      than 1023. */
  lemma PackHighbdSignedMin(w: int, bitDepth: nat)
    requires 1 <= bitDepth <= 15 && 32768 <= w < 65536
    ensures PackHighbd(w, bitDepth) == w
    ensures PackHighbd(40000, 10) == 40000
  {
    Pow2Monotone(bitDepth, 15);
    Pow2Fifteen();
    Pow2Ten();
  }

  /** At 16 bits the mask 2^16 - 1 is -1 as a signed 16-bit lane, so every
      packed value below 2^15 is stored as 65535 and every value from 2^15
      on passes unchanged. */
  lemma PackHighbdSixteenBits(w: int)
    ensures var sat := Clamp(w, 0, 65535);
            PackHighbd(w, 16) == if sat < 32768 then 65535 else sat
  {
    Pow2Fifteen();
    Pow2Add(15, 1);
    assert Pow2(1) == 2;
  }

  /** One output pixel of apply_selfguided_restoration_avx2. */
  function OutputPixel(cfg: Config, highbd: bool, bitDepth: nat, xq0: int, xq1: int, src: int, f1: int, f2: int)
    : (p: int)
    ensures 0 <= p < 65536
    ensures !highbd ==> p <= 255
  {
    var w := ProjectPixel(cfg, xq0, xq1, src, f1, f2);
    if highbd then PackHighbd(w, bitDepth) else PackLowbd(w)
  }

  /** With both projection weights zero, a pixel within the range of its bit
      depth comes out unchanged. */
  lemma OutputNeutral(cfg: Config, highbd: bool, bitDepth: nat, src: int, f1: int, f2: int)
    requires highbd ==> 1 <= bitDepth <= 15 && 0 <= src < Pow2(bitDepth)
    requires !highbd ==> 0 <= src <= 255
    ensures OutputPixel(cfg, highbd, bitDepth, 0, 0, src, f1, f2) == src
  {
    ProjectKeepsSource(cfg, 0, 0, src, f1, f2);
    if highbd {
      Pow2Monotone(bitDepth, 15);
      Pow2Fifteen();
      PackHighbdClamps(src, bitDepth);
    }
  }

  /** 8-bit output lies in [0, 255]; high bit-depth output below 2^15 lies
      in [0, 2^bitDepth - 1]. */
  lemma OutputRange(cfg: Config, highbd: bool, bitDepth: nat, xq0: int, xq1: int, src: int, f1: int, f2: int)
    requires highbd ==> 1 <= bitDepth <= 15 && ProjectPixel(cfg, xq0, xq1, src, f1, f2) < 32768
    ensures var p := OutputPixel(cfg, highbd, bitDepth, xq0, xq1, src, f1, f2);
            0 <= p && (highbd ==> p < Pow2(bitDepth)) && (!highbd ==> p <= 255)
  {
    if highbd {
      PackHighbdClamps(ProjectPixel(cfg, xq0, xq1, src, f1, f2), bitDepth);
    }
  }

  /** The blending loop of apply_selfguided_restoration_avx2: every image
      pixel of dst receives the projection of the source pixel and the two
      filtered values. */
  method Project(cfg: Config, ext: Plane, width: nat, height: nat, xq0: int, xq1: int, bitDepth: nat, highbd: bool,
                 flt1: array2<int>, flt2: array2<int>, dst: array2<int>)
    requires Spans(ext, height + 2 * cfg.borderVert, width + 2 * cfg.borderHorz)
    requires flt1.Length0 == height && flt1.Length1 == width
    requires flt2.Length0 == height && flt2.Length1 == width
    requires dst.Length0 == height && dst.Length1 == width
    requires dst != flt1 && dst != flt2
    modifies dst
    ensures forall i, j :: 0 <= i < height && 0 <= j < width ==>
              dst[i, j] == OutputPixel(cfg, highbd, bitDepth, xq0, xq1, ext[cfg.borderVert + i][cfg.borderHorz + j],
                                       flt1[i, j], flt2[i, j])
  {
    var i := 0;
    while i < height
      invariant 0 <= i <= height
      invariant forall y, x :: 0 <= y < i && 0 <= x < width ==>
                  dst[y, x] == OutputPixel(cfg, highbd, bitDepth, xq0, xq1, ext[cfg.borderVert + y][cfg.borderHorz + x],
                                           flt1[y, x], flt2[y, x])
    {
      var j := 0;
      while j < width
        invariant 0 <= j <= width
        invariant forall y, x :: 0 <= y < i && 0 <= x < width ==>
                    dst[y, x] == OutputPixel(cfg, highbd, bitDepth, xq0, xq1, ext[cfg.borderVert + y][cfg.borderHorz + x],
                                             flt1[y, x], flt2[y, x])
        invariant forall x :: 0 <= x < j ==>
                    dst[i, x] == OutputPixel(cfg, highbd, bitDepth, xq0, xq1, ext[cfg.borderVert + i][cfg.borderHorz + x],
                                             flt1[i, x], flt2[i, x])
      {
        var src := ext[cfg.borderVert + i][cfg.borderHorz + j];
        dst[i, j] := OutputPixel(cfg, highbd, bitDepth, xq0, xq1, src, flt1[i, j], flt2[i, j]);
        j := j + 1;
      }
      i := i + 1;
    }
  }

  /** apply_selfguided_restoration_avx2 on a tile of width x height pixels
      whose extended plane is ext, with parameter set eps and projection
      weights xq0, xq1 (decode_xq's output): dst receives the projection of
      the two pass outputs, whose weight planes are w1 and w2. */
  method ApplySelfGuidedRestoration(cfg: Config, ext: Plane, width: nat, height: nat, eps: nat,
                                    xq0: int, xq1: int, bitDepth: nat, highbd: bool, dst: array2<int>)
    returns (ghost w1: WeightPlane, ghost w2: WeightPlane)
    requires ValidTables(cfg) && eps < |cfg.sgrParams| && ValidParams(cfg, cfg.sgrParams[eps])
    requires ValidPlane(cfg, ext, width, height)
    requires Spans(ext, height + 2 * cfg.borderVert, RoundUp8(width + 2 * cfg.borderHorz))
    requires width * height <= cfg.tilePelsMax
    requires dst.Length0 == height && dst.Length1 == width
    modifies dst
    ensures var ps := cfg.sgrParams[eps];
            && IsWeightPlane(cfg, ext, width, height, bitDepth, ps.r1, ps.e1, w1) && WeightsInRange(cfg, w1)
            && IsWeightPlane(cfg, ext, width, height, bitDepth, ps.r2, ps.e2, w2) && WeightsInRange(cfg, w2)
    ensures forall i, j :: 0 <= i < height && 0 <= j < width ==>
              dst[i, j] == OutputPixel(cfg, highbd, bitDepth, xq0, xq1, ext[cfg.borderVert + i][cfg.borderHorz + j],
                                       PassOutput(cfg, w1, ext, width, height, i, j),
                                       PassOutput(cfg, w2, ext, width, height, i, j))
  {
    var flt1 := new int[height, width];
    var flt2 := new int[height, width];
    var ps := cfg.sgrParams[eps];
    w1, w2 := SelfGuidedRestoration(cfg, ext, width, height, ps, bitDepth, flt1, flt2);
    Project(cfg, ext, width, height, xq0, xq1, bitDepth, highbd, flt1, flt2, dst);
  }
}
