# Self-guided restoration, entropy contexts and token costs of AV1

This project models, in Dafny, three parts of the AV1 codec sources:

- **The self-guided restoration (SGR) filter** of `av1/common/x86/selfguided_avx2.c`, as the scalar per-pixel arithmetic that the AVX2 code vectorises. The filter has five stages:
  1. Two integral images of the border-extended plane: one of the samples and one of their squares. They are built row by row, in chunks of 8 with the `scan_32` lane scan and the `ldiff` carry.
  2. Window sums by the four-corner difference of `boxsum_from_ii`.
  3. The per-pixel weight `a` and offset `b` of `compute_p` and `calc_ab`, over the image plus a one-pixel halo.
  4. The 3x3 `cross_sum` of `a` and `b`, and the rounded shift of `final_filter`. Two passes run with the two (radius, regularisation) pairs of the chosen `sgr_params` entry.
  5. The projection of `apply_selfguided_restoration_avx2`. It mixes the source with the two filtered planes using the weights `xq0` and `xq1`, rounds, and packs to 8 or 16 bits.
- **The coefficient-context helpers and token constants** of `av1/common/entropy.h`.
- **The bit-cost table `av1_prob_cost` and `av1_cost_tokens_from_cdf`** of `av1/encoder/cost.c`.

Several definitions live outside these files. They are parameters of the model:

- The `SGRPROJ_*` constants and the tables `sgrproj_mtable`, `one_by_x`, `x_by_xplus1` and `sgr_params`. They are fields of `SgrConfig.Config`. `SgrConfig.ValidTables` constrains them only as far as the filter's arithmetic relies on, for example `x_by_xplus1[z] <= SGRPROJ_SGR`.
- `AOM_ICDF`, `CDF_PROB_TOP`, `EC_MIN_PROB` and `av1_cost_symbol`. They are fields of `Cost.CdfModel`.

Samples are a row-major `seq<seq<int>>`. The A, B, C and D buffers are four separate `array2<int>` in place of the source's one carved buffer. All four share one origin offset (`OriginY`, `OriginX`): the array cell of logical position (0, 0).

The model is organised as follows:

- The filter's loops are methods with loop invariants:
  - `IntegralImages`, `FillRow` and `StoreChunk` build the integral images;
  - `CalcAB`, `CalcABRow` and `CalcABPixel` fill A and B;
  - `FinalFilter` and `FinalFilterRow` compute one pass's output;
  - `SelfGuidedRestoration` runs the two-pass loop;
  - `Project` applies the final projection.
- Each loop method is proved against pure specification functions:
  - `Planes.Prefix` for the integral images;
  - `SgrCoefficients.PixelCoeffs` for the weights;
  - `SgrPass.PassOutput` for a pass's output;
  - `SgrApply.OutputPixel` for the final pixel.
- The properties of those functions are proved as lemmas.
- `Cost.CostTokensFromCdf` is the source's loop over a `costs` array. Its specification is `Cost.CostsAfter`, the sequence of writes it performs.

Points of the arithmetic the model follows exactly:

- `b` is computed from the raw window sum `sum1`, not from a bit-depth-normalised one.
- The reciprocal tables are read at `one_by_x[n - 1]` and `sgrproj_mtable[e - 1][n - 1]`.
- The cross sum adds the corners with weight 3: `4 * (x + xl + xr + xt + xb) + 3 * (xtl + xtr + xbl + xbr)`.
- The projection shifts by `SGRPROJ_PRJ_BITS + SGRPROJ_RST_BITS`.
- In the high-bit-depth path, the clamp to `2^bd - 1` is a *signed* 16-bit minimum (`_mm256_min_epi16`) applied after an unsigned saturating pack. `SgrApply.PackHighbd` models that sequence as written. `SgrApply.PackHighbdSignedMin` shows that, at bit depths up to 15, every packed value of 2^15 or more passes the clamp unchanged. `SgrApply.PackHighbdSixteenBits` shows that at 16 bits the mask is -1 as a signed lane, so every value below 2^15 is stored as 65535.

## Model

| member | source | states |
|---|---|---|
| FixedPoint.RoundForShift | av1/common/x86/selfguided_avx2.c:172-174 | the rounding term `(1 << s) >> 1` is 0 for s = 0, is half of 2^s otherwise, and is always below 2^s |
| FixedPoint.ShrOfScaled | av1/common/x86/selfguided_avx2.c:328-329 | an arithmetic right shift by s of `a * 2^s + c`, with 0 <= c < 2^s, gives back a |
| FixedPoint.ShrAddMultiple | av1/common/x86/selfguided_avx2.c:464-467 | a whole multiple of 2^s passes through an arithmetic shift by s unchanged |
| FixedPoint.ShrMonotone | av1/common/x86/selfguided_avx2.c:328-329 | an arithmetic right shift preserves order |
| FixedPoint.Clamp | av1/common/x86/selfguided_avx2.c:482-485 | saturation into [lo, hi]: the value itself when inside, lo below, hi above |
| Planes.PrefixNextRow | av1/common/x86/selfguided_avx2.c:95-101 | the 2-D prefix-sum recurrence: row y + 1 of an integral image is row y plus the prefix of sample row y |
| Planes.FourCorner | av1/common/x86/selfguided_avx2.c:162-170 | the sum over any rectangle is `br - bl - (tr - tl)` of the prefix sums at its corners |
| Planes.FourCornerSq | av1/common/x86/selfguided_avx2.c:162-170 | the same four-corner identity for sums of squares |
| Planes.RectSumSqIsSquared | av1/common/x86/selfguided_avx2.c:89-93 | summing squares over a rectangle is summing the rectangle of the squared plane (`x2 = madd(x1, x1)`) |
| Planes.RectCauchySchwarz | av1/common/x86/selfguided_avx2.c:191-195 | for any rectangle of n samples, n times the sum of squares is at least the square of the sum |
| Planes.WindowSumsNonNeg | av1/common/x86/selfguided_avx2.c:89-90 | window sums of unsigned samples, and of their squares, are non-negative |
| IntegralImage.Scan8Lanes | av1/common/x86/selfguided_avx2.c:50-59 | lane k of `scan_32` (two in-half shift-adds, then the low half's total carried to the high half) is x0 + ... + xk |
| IntegralImage.Scan8 | av1/common/x86/selfguided_avx2.c:40-59 | `scan_32` as written: two in-half shift-adds, then the low half's total broadcast into the high half; returns 8 lanes, and `Scan8IsPrefixSums` proves they are the inclusive prefix sums |
| IntegralImage.Scan8IsPrefixSums | av1/common/x86/selfguided_avx2.c:40-59 | `scan_32` returns the inclusive prefix sums of its 8 lanes |
| IntegralImage.RoundUp8 | av1/common/x86/selfguided_avx2.c:83 | the column the 8-wide chunk loop stops at: the least multiple of 8 at or above the width |
| IntegralImage.ChunkValues | av1/common/x86/selfguided_avx2.c:95-107 | scan lane plus the cell above plus `ldiff` is the integral-image value, and the new `ldiff` is the row prefix up to the chunk's end |
| IntegralImage.StoreChunk | av1/common/x86/selfguided_avx2.c:84-107 | one chunk stores the 8 correct cells of row i + 1, changes nothing else, and returns the carried `ldiff` |
| IntegralImage.FillRow | av1/common/x86/selfguided_avx2.c:75-108 | one row iteration makes row i + 1 of both images the prefix sums, and leaves every other row, and every column past the rounded-up width, unchanged |
| IntegralImage.IntegralImages | av1/common/x86/selfguided_avx2.c:67-158 | D holds every prefix sum of the samples and C every prefix sum of their squares; row 0 and column 0 are zero; no cell outside rows 0 .. height and columns 0 .. the rounded-up width changes |
| IntegralImage.SquareImage | av1/common/x86/selfguided_avx2.c:61-63 | an integral image of the squared plane is exactly an image of sums of squares |
| IntegralImage.IntegralImageNarrow | av1/common/x86/selfguided_avx2.c:387-392 | an image built over the rounded-up width is an image over any narrower width |
| IntegralImage.BoxSumFromIi | av1/common/x86/selfguided_avx2.c:160-170 | `boxsum_from_ii` as written, the four-corner difference `br - bl - (tr - tl)`; `BoxSumExact` and `BoxSumExactSq` prove it is the window sum |
| IntegralImage.BoxSumExact | av1/common/x86/selfguided_avx2.c:160-170 | read from an integral image, `boxsum_from_ii` is exactly the sum over the (2r+1) x (2r+1) window |
| IntegralImage.BoxSumExactSq | av1/common/x86/selfguided_avx2.c:160-170 | the same for the window sum of squares |
| IntegralImage.Wrap32FourCorner | av1/common/x86/selfguided_avx2.c:162-170 | the four-corner difference of 32-bit lane values equals, modulo 2^32, the four-corner difference of the exact values |
| IntegralImage.BoxSumWrappedSq | av1/common/x86/selfguided_avx2.c:136-170 | over a sum-of-squares image whose cells agree with the exact sums only modulo 2^32, `boxsum_from_ii` still gives the exact window sum of squares whenever that sum is below 2^32 |
| SgrCoefficients.ComputeP | av1/common/x86/selfguided_avx2.c:176-196 | for bit depths above 8, `max(a*n, b*b) - b*b` of the round-half-up normalised sums is never negative |
| SgrCoefficients.WindowPNonNeg | av1/common/x86/selfguided_avx2.c:191-195 | for 8-bit, the proxy `n * sum2 - sum1 * sum1` of a real window is non-negative (Cauchy-Schwarz) |
| SgrCoefficients.TableIndex | av1/common/x86/selfguided_avx2.c:245-248 | z is clamped into [0, 255] and is zero when p is zero; below 255, `z * 2^MTABLE_BITS` is at most `p * s + rnd` |
| SgrCoefficients.TableIndexMonotone | av1/common/x86/selfguided_avx2.c:245-248 | a larger proxy never selects a smaller table index |
| SgrCoefficients.PassCoeffs | av1/common/x86/selfguided_avx2.c:250-263 | a is `x_by_xplus1[z]` and lies in [0, SGRPROJ_SGR]; b is non-negative |
| SgrCoefficients.FullWeightNoOffset | av1/common/x86/selfguided_avx2.c:254-263 | when a equals SGRPROJ_SGR, the offset b is zero |
| SgrCoefficients.OffsetMonotone | av1/common/x86/selfguided_avx2.c:257-263 | for a fixed weight, b grows with the window sum |
| SgrCoefficients.CoeffsFromSums | av1/common/x86/selfguided_avx2.c:204-207 | the weights of a pass with radius r read `sgrproj_mtable[e-1][n-1]` and `one_by_x[n-1]`, n = (2r+1)^2, and lie in range |
| SgrCoefficients.PixelCoeffs | av1/common/x86/selfguided_avx2.c:214-265 | the weights of any halo cell lie in a in [0, SGRPROJ_SGR] and b >= 0 |
| SgrCoefficients.HaloWindow | av1/common/x86/selfguided_avx2.c:400 | with r + 1 <= min(border), the window of every halo cell lies inside the extended plane |
| SgrCoefficients.HaloWindowFacts | av1/common/x86/selfguided_avx2.c:217-243 | the window sums of a halo cell and its proxy are non-negative |
| SgrCoefficients.WindowSums | av1/common/x86/selfguided_avx2.c:214-218 | `pre_sum1` and `pre_sum2` are the window sum and window sum of squares of the extended plane |
| SgrCoefficients.PixelStep | av1/common/x86/selfguided_avx2.c:214-263 | the body of the loops computes the weights `PixelCoeffs` of its cell |
| SgrCoefficients.CalcABPixel | av1/common/x86/selfguided_avx2.c:252-265 | A and B at the cell receive its weights and nothing else changes |
| SgrCoefficients.CalcABRow | av1/common/x86/selfguided_avx2.c:213-266 | every cell of row i, from column -1 to width, receives its weights; other rows, and the cells of row i outside the halo, are unchanged |
| SgrCoefficients.CalcAB | av1/common/x86/selfguided_avx2.c:201-268 | every cell i in [-1, height], j in [-1, width] of A and B holds the weights of that pixel; every cell outside that halo keeps its value |
| SgrPass.CrossSum | av1/common/x86/selfguided_avx2.c:270-304 | `(fours + threes) << 2 - threes` is `4 * (x + xl + xr + xt + xb) + 3 * corners`, and a constant neighbourhood c yields 32c |
| SgrPass.CrossSumBounds | av1/common/x86/selfguided_avx2.c:286-304 | a neighbourhood within [lo, hi] sums to within [32 lo, 32 hi] |
| SgrPass.FinalPixel | av1/common/x86/selfguided_avx2.c:324-329 | `(a * src + b + rnd) >> (SGRPROJ_SGR_BITS + nb - SGRPROJ_RST_BITS)` for one pixel; its meaning is proved by `FinalPixelFullWeight`, `FinalPixelMonotone` and `FinalPixelNonNeg` |
| SgrPass.FinalPixelFullWeight | av1/common/x86/selfguided_avx2.c:311-331 | full weight 32 * SGRPROJ_SGR with zero offset returns the source scaled by 2^RST_BITS |
| SgrPass.FinalPixelMonotone | av1/common/x86/selfguided_avx2.c:327-329 | for a non-negative weight, the output grows with the offset and with the source |
| SgrPass.FinalPixelNonNeg | av1/common/x86/selfguided_avx2.c:327-329 | non-negative weights and samples give a non-negative output |
| SgrPass.WeightPlaneInRange | av1/common/x86/selfguided_avx2.c:250-263 | every cell of a pass's weight plane has a in [0, SGRPROJ_SGR] and b >= 0 |
| SgrPass.CrossWeightsInRange | av1/common/x86/selfguided_avx2.c:319-320 | the cross sums of in-range weights give a in [0, 32 * SGRPROJ_SGR] and b >= 0 |
| SgrPass.PassOutput | av1/common/x86/selfguided_avx2.c:311-333 | the output of one pass at a pixel: the final filter applied to the cross sums of a weight plane; `PassOutputNonNeg` and `FilterAtIsPassOutput` state what it promises |
| SgrPass.PassOutputNonNeg | av1/common/x86/selfguided_avx2.c:317-333 | the output of a pass over unsigned samples is non-negative |
| SgrPass.FilterAtIsPassOutput | av1/common/x86/selfguided_avx2.c:319-329 | the value `final_filter` computes from the A and B buffers is the pass output of the weight plane they hold |
| SgrFilter.FinalFilterRow | av1/common/x86/selfguided_avx2.c:318-332 | row i of dst receives the filtered pixels; other rows are unchanged |
| SgrFilter.FinalFilter | av1/common/x86/selfguided_avx2.c:308-334 | every pixel 0 <= i < height, 0 <= j < width of dst is `(cross(A) * src + cross(B) + rnd) >> (SGR_BITS + 5 - RST_BITS)` |
| SgrFilter.RunPass | av1/common/x86/selfguided_avx2.c:396-403 | one pass: flt holds the pass output of the weight plane that `calc_ab` computes, with weights in range |
| SgrFilter.SelfGuidedRestoration | av1/common/x86/selfguided_avx2.c:336-405 | flt1 and flt2 hold the outputs of the passes (r1, e1) and (r2, e2) over the shared integral images |
| SgrApply.ProjectPixel | av1/common/x86/selfguided_avx2.c:444-467 | the projection `(xq0 (f1 - u) + xq1 (f2 - u) + (u << PRJ) + rnd) >> (PRJ + RST)` with `u = src << RST`; `ProjectIsSourcePlusCorrection` and `ProjectKeepsSource` state its meaning |
| SgrApply.ProjectIsSourcePlusCorrection | av1/common/x86/selfguided_avx2.c:444-467 | the projected value is the source plus the rounded, shifted correction `xq0 * (f1 - u) + xq1 * (f2 - u)` |
| SgrApply.ProjectKeepsSource | av1/common/x86/selfguided_avx2.c:444-467 | zero weights, or filtered values equal to `u`, reproduce the source exactly |
| SgrApply.PackLowbd | av1/common/x86/selfguided_avx2.c:478-489 | the signed 16-bit pack followed by the unsigned 8-bit pack clamps to [0, 255] |
| SgrApply.PackHighbd | av1/common/x86/selfguided_avx2.c:469-477 | the unsigned 16-bit pack followed by a signed 16-bit min always gives a 16-bit value |
| SgrApply.PackHighbdClamps | av1/common/x86/selfguided_avx2.c:469-477 | below 2^15, the high-bit-depth pack clamps to [0, 2^bd - 1] |
| SgrApply.PackHighbdSignedMin | av1/common/x86/selfguided_avx2.c:473-476 | at bit depths 1 .. 15, every value in [2^15, 2^16) is stored unchanged by the signed min, whatever the mask (40000 at 10 bits, for example) |
| SgrApply.PackHighbdSixteenBits | av1/common/x86/selfguided_avx2.c:469-477 | at 16 bits the mask `(1 << 16) - 1` is -1 as a signed 16-bit lane: every saturated value below 2^15 is stored as 65535, every value from 2^15 on is stored unchanged |
| SgrApply.OutputPixel | av1/common/x86/selfguided_avx2.c:444-489 | the packed output of one pixel always fits 16 bits, and fits [0, 255] in the 8-bit path |
| SgrApply.OutputNeutral | av1/common/x86/selfguided_avx2.c:424-491 | with xq0 = xq1 = 0, every in-range source sample is reproduced exactly in both bit-depth modes |
| SgrApply.OutputRange | av1/common/x86/selfguided_avx2.c:469-489 | the output lies in [0, 255] for 8-bit and in [0, 2^bd - 1] for high bit depth |
| SgrApply.Project | av1/common/x86/selfguided_avx2.c:424-491 | every pixel of dst is the packed projection of the source and both filtered planes |
| SgrApply.ApplySelfGuidedRestoration | av1/common/x86/selfguided_avx2.c:407-492 | dst is the packed projection of the source and the two pass outputs of `sgr_params[eps]`, with both weight planes in range |
| Entropy.TokenCategories | av1/common/entropy.h:33-57 | CAT1_MIN_VAL = FOUR_TOKEN + 1; each category starts 2^k after the previous (5, 7, 11, 19, 35, 67); the tokens are consecutive up to EOB_TOKEN = ENTROPY_TOKENS - 1 = ENTROPY_NODES |
| Entropy.BandCoeffContexts | av1/common/entropy.h:171-174 | COEFF_CONTEXTS0 (3) for band 0 and COEFF_CONTEXTS (6) otherwise |
| Entropy.CombineEntropyContexts | av1/common/entropy.h:231-234 | the result is in {0, 1, 2}: 0 iff both contexts are zero, 2 iff both are nonzero |
| Entropy.Cat6ExtraBitsSize | av1/common/entropy.h:130-142 | never above CAT6_BIT_SIZE (18); below it, a multiple of 4 and at least bit depth + 3 |
| Entropy.Cat6ExtraBitsSizeBounds | av1/common/entropy.h:130-142 | never above CAT6_BIT_SIZE (18); 18 exactly when the bit count is 17 or more; otherwise a multiple of 4 within [bits, bits + 3] |
| Entropy.Cat6LargeTransforms | av1/common/entropy.h:133-136 | every size whose square-up index is TX_32X32 or larger gets the size of TX_32X32 |
| Entropy.Cat6Examples | av1/common/entropy.h:130-142 | 4x4 at 8 bits gives 12, 32x32 at 10 bits gives 16, 32x32 and 64x64 at 12 bits give 18 |
| Entropy.TxSizeEntropyCtx | av1/common/entropy.h:331-334 | `(sqr + sqr_up + 1) >> 1` lies between sqr and sqr_up: sqr for squares, sqr_up for 2:1 sizes |
| Entropy.BandTranslate | av1/common/entropy.h:198-205 | the 4x4 table exactly for TX_4X4, the 4x8/8x4 table exactly for TX_4X8 and TX_8X4, the 8x8plus table for every other size |
| Entropy.BandTranslateCovers | av1/common/entropy.h:198-205 | the selected band table has an entry for every coefficient of the transform |
| Entropy.AnyNonZero | av1/common/entropy.h:236-322 | the `!!` of a multi-byte read: 1 exactly when some byte of the first n is nonzero, 0 otherwise |
| Entropy.ContextBytesPerSide | av1/common/entropy.h:236-322 | each case reads one context byte per 4 samples of its side: 1, 2, 4, 8 or 16 bytes |
| Entropy.EntropyContext | av1/common/entropy.h:236-324 | `get_entropy_context`: in {0, 1, 2}; 0 iff every byte it reads on both sides is zero; 2 iff both sides have a nonzero byte among those it reads |
| Entropy.EntropyContextMeaning | av1/common/entropy.h:236-324 | the context is in {0, 1, 2}; 0 iff every above byte over the width and every left byte over the height is zero; 2 iff both sides have a nonzero byte |
| Cost.ProbCost | av1/encoder/cost.c:16-39 | the `av1_prob_cost` entry at index i, for 0 <= i < 256; `ProbCostRange`, `ProbCostNonIncreasing` and `ProbCostPowersOfTwo` state its properties |
| Cost.ProbCostRange | av1/encoder/cost.c:16-39 | entry 0 repeats entry 1 (4096), the last entry is 3, and every entry lies in [3, 4096] |
| Cost.ProbCostNonIncreasing | av1/encoder/cost.c:16-39 | over indices 1 .. 255 a higher probability never costs more |
| Cost.ProbCostPowersOfTwo | av1/encoder/cost.c:16-38 | the entry at 2^k is (8 - k) * 512 for k = 0 .. 7 |
| Cost.EndIndex | av1/encoder/cost.c:45-59 | the loop stops at the first index whose entry is `AOM_ICDF(CDF_PROB_TOP)` |
| Cost.SymbolProb | av1/encoder/cost.c:46-47 | p15 is `ICDF(cdf[i]) - prev`, floored to EC_MIN_PROB |
| Cost.DifferenceFitsSixteenBits | av1/encoder/cost.c:44-47 | on a well-formed CDF, the 16-bit difference neither goes negative nor wraps |
| Cost.ProbsTelescope | av1/encoder/cost.c:48-51 | because prev is the unfloored value, the probabilities sum to at least the last cumulative value, and exactly to it when no floor applies |
| Cost.CostsAfter | av1/encoder/cost.c:53-56 | the writes of symbols 0 .. n - 1, in order, to `inv_map[i]` or to i; the length of costs is unchanged |
| Cost.CostsAfterUntouched | av1/encoder/cost.c:53-56 | an entry of costs that no symbol targets keeps its value |
| Cost.CostsAfterWritten | av1/encoder/cost.c:53-56 | the entry a symbol targets holds `av1_cost_symbol(p15)` of that symbol, unless a later symbol targets it too |
| Cost.CostsAfterDirect | av1/encoder/cost.c:55-56 | without `inv_map`, entry i holds the cost of symbol i up to the end mark, and later entries are untouched |
| Cost.CostTokensFromCdf | av1/encoder/cost.c:41-61 | costs ends as the sequence of writes for symbols 0 .. the end mark inclusive, to `inv_map[i]` or to i |

## Left out

- AVX2 mechanics. Register lanes, `madd`/`mullo` lane products, and the `pack`/`permute` shuffles are modelled as their per-pixel scalar results. This includes the batches of 16 pixels in the projection and the overlapping 8-wide stores with `j += 4` in `final_filter`. The model writes each pixel once.
- The CONFIG_DEBUG lane mask in `calc_ab` zeroes the lanes from column `width + 1` on. Those lanes are not part of the model.
- SgrCoefficients.CalcAB: the source stores 8 lanes at a time from column j = -1, 7, 15, ..., so in each halo row it also overwrites up to 7 cells of A and B past column `width`. Those cells are never read again. The model writes only the halo, and its frame promises that every cell outside the halo keeps its value, which the source does not. The same holds for SgrCoefficients.CalcABRow.
- The single aligned scratch buffer carved into A, B, C and D. The `ALIGN_POWER_OF_TWO` strides and the `+16` stride adjustment are also left out. The model uses four separate 2-D arrays with an explicit origin.
- `CONVERT_TO_SHORTPTR` and the 8/16-bit sample storage. Samples are integers with a bit depth.
- 32-bit wrap-around. The model computes with unbounded integers and assumes that no 32-bit lane overflows and no 16-bit `madd_epi16` operand leaves its signed 16-bit range. Its preconditions do not enforce this: samples are only required to be non-negative, the bit depth is any natural number, and the `sgrproj_mtable` entries and the weights `xq0` and `xq1` are unbounded. On inputs outside the range the source is written for, the source wraps and the model does not. One wrap happens on ordinary input: for 10- and 12-bit samples, the cells of the sum-of-squares image C exceed 2^31 over large regions (4096 samples of 1023 squared already give about 4.3 * 10^9). `IntegralImage.IntegralImages` holds the exact sums, which equal the source's C only modulo 2^32. The source stays correct because the four-corner difference is exact modulo 2^32 and the window sum it recovers is small. `IntegralImage.BoxSumWrappedSq` proves this. The products concerned are:
  - the squares `madd(x1, x1)` in `integral_images` and `integral_images_highbd` (`av1/common/x86/selfguided_avx2.c:90`, `:138`), and the row sums of the integral images;
  - `madd(b, b)`, `madd(sum1, sum1)` and `mullo(a, n)`/`mullo(sum2, n)` in `compute_p` (`:189-193`);
  - `mullo(p, s)` for the table index (`:246`) and `madd(a_complement, one_over_n)` then `mullo(·, sum1)` for b (`:260-261`) in `calc_ab`;
  - `madd(a, src)` in `final_filter` (`:327`);
  - `mullo(xq0, f1 - u)`, `mullo(xq1, f2 - u)` and `u << SGRPROJ_PRJ_BITS` in the projection (`:454-460`).
- SgrApply.OutputRange: for high bit depth, it requires the projected value to be below 2^15 and the bit depth to be at most 15. The signed 16-bit minimum does not clamp larger values, as `SgrApply.PackHighbdSignedMin` shows. At 16 bits the mask is -1 as a signed lane and every value below 2^15 is stored as 65535, as `SgrApply.PackHighbdSixteenBits` shows.
- SgrApply.PackHighbdClamps: it requires the value to be below 2^15 and the bit depth to be at most 15, for the same reasons.
- SgrApply.OutputNeutral: for high bit depth, it requires the bit depth to be at most 15. At 16 bits the source stores every value below 2^15 as 65535, so a source sample is not reproduced.
- `restoration.h` and `restoration.c` are not part of this model. `SGRPROJ_*`, `sgrproj_mtable`, `one_by_x`, `x_by_xplus1`, `sgr_params` and `RESTORATION_TILEPELS_MAX` are fields of `SgrConfig.Config`.
- `decode_xq` is not part of this model. The projection weights `xq0` and `xq1` are inputs.
- Exactness on flat regions is left out, because it depends on the values in those tables.
- The `TX_SIZE` enum and the `txsize_sqr_map`/`txsize_sqr_up_map` tables are not part of this model. `Entropy.TxSize` lists the 19 sizes, and the maps are given by their meaning: the index of the smaller side and the index of the larger side.
- `av1_get_cat6_extrabits_size` is modelled for the build with CONFIG_TX64X64, which has the 64-point sizes and clamps them to TX_32X32. The build without it is left out.
- The type-punned multi-byte reads of `get_entropy_context` are modelled as "some byte in a prefix is nonzero". Endianness and alignment are left out.
- The extern declarations of `entropy.h` have no bodies here: `av1_default_coef_probs`, the adaptation and averaging functions, and the band tables' contents. The band tables appear only by identity and size.
- `AOM_ICDF`, `CDF_PROB_TOP`, `EC_MIN_PROB` and `av1_cost_symbol` are not part of this model. They are the fields of `Cost.CdfModel`.
- Cost.CostTokensFromCdf: it requires a well-formed CDF. The CDF must reach the end mark, and the cumulative values up to it must rise within [0, CDF_PROB_TOP], below 2^16. On a malformed CDF, the 16-bit wrap of `p15` is not modelled.
- The values of `av1_prob_cost` are taken as given, not derived from `round(-log2(i / 256) * 512)`, because the model has no logarithm. The table is held as 16 rows of 16 entries.
