// The coefficient-context helpers and token constants of
// av1/common/entropy.h.

module Entropy {
  import opened FixedPoint

  // Coefficient token alphabet.
  const ZeroToken: nat := 0
  const OneToken: nat := 1
  const TwoToken: nat := 2
  const ThreeToken: nat := 3
  const FourToken: nat := 4
  const Category1Token: nat := 5
  const Category2Token: nat := 6
  const Category3Token: nat := 7
  const Category4Token: nat := 8
  const Category5Token: nat := 9
  const Category6Token: nat := 10
  const EobToken: nat := 11
  const EntropyTokens: nat := 12
  const EntropyNodes: nat := 11

  // Smallest value coded by each category token.
  const Cat1MinVal: nat := 5
  const Cat2MinVal: nat := 7
  const Cat3MinVal: nat := 11
  const Cat4MinVal: nat := 19
  const Cat5MinVal: nat := 35
  const Cat6MinVal: nat := 67

  const Cat6BitSize: nat := 18

  const CoeffContexts: nat := 6
  const CoeffContexts0: nat := 3

  /** The minimum value of category k, 1 <= k <= 6. */
  function CatMinVal(k: nat): nat
    requires 1 <= k <= 6
  {
    [Cat1MinVal, Cat2MinVal, Cat3MinVal, Cat4MinVal, Cat5MinVal, Cat6MinVal][k - 1]
  }

  /** The token of category k. */
  function CategoryToken(k: nat): nat
    requires 1 <= k <= 6
  {
    Category1Token + (k - 1)
  }

  /** The category tokens follow FOUR_TOKEN and each category k < 6 codes
      2^k values with k extra bits: CAT1 starts right after the value 4 of
      FOUR_TOKEN and CAT(k + 1) starts where CATk's 2^k values end. The
      tokens themselves are consecutive and EOB_TOKEN is the last of
      ENTROPY_TOKENS, whose binary tree has ENTROPY_NODES inner nodes. */
  lemma TokenCategories()
    ensures Cat1MinVal == FourToken + 1
    ensures forall k :: 1 <= k < 6 ==> CatMinVal(k + 1) == CatMinVal(k) + Pow2(k)
    ensures forall k :: 1 <= k < 6 ==> CategoryToken(k + 1) == CategoryToken(k) + 1
    ensures CategoryToken(1) == FourToken + 1 && CategoryToken(6) + 1 == EobToken
    ensures EobToken + 1 == EntropyTokens && EntropyNodes == EntropyTokens - 1
  {
    assert Pow2(1) == 2 && Pow2(2) == 4 && Pow2(3) == 8 && Pow2(4) == 16 && Pow2(5) == 32;
  }

  /** BAND_COEFF_CONTEXTS(band): band 0 has COEFF_CONTEXTS0 contexts, the
      other bands COEFF_CONTEXTS; band 0's contexts are a prefix of the
      others'. */
  function BandCoeffContexts(band: nat): (n: nat)
    ensures band == 0 ==> n == CoeffContexts0
    ensures band != 0 ==> n == CoeffContexts
    ensures 1 <= n <= CoeffContexts
  {
    if band == 0 then CoeffContexts0 else CoeffContexts
  }

  /** combine_entropy_contexts: the number of the two neighbours, above and
      left, that have a nonzero context. */
  function CombineEntropyContexts(a: int, b: int): (c: nat)
    ensures c <= 2
    ensures c == 0 <==> a == 0 && b == 0
    ensures c == 2 <==> a != 0 && b != 0
  {
    (if a != 0 then 1 else 0) + (if b != 0 then 1 else 0)
  }

  /** The transform sizes, by width x height in pixels. */
  datatype TxSize =
    | Tx4x4 | Tx8x8 | Tx16x16 | Tx32x32 | Tx64x64
    | Tx4x8 | Tx8x4 | Tx8x16 | Tx16x8 | Tx16x32 | Tx32x16 | Tx32x64 | Tx64x32
    | Tx4x16 | Tx16x4 | Tx8x32 | Tx32x8 | Tx16x64 | Tx64x16

  /** log2 of the width and of the height of a transform, in pixels. */
  function WidthLog2(t: TxSize): nat
  {
    match t
    case Tx4x4 => 2 case Tx8x8 => 3 case Tx16x16 => 4 case Tx32x32 => 5 case Tx64x64 => 6
    case Tx4x8 => 2 case Tx8x4 => 3 case Tx8x16 => 3 case Tx16x8 => 4
    case Tx16x32 => 4 case Tx32x16 => 5 case Tx32x64 => 5 case Tx64x32 => 6
    case Tx4x16 => 2 case Tx16x4 => 4 case Tx8x32 => 3 case Tx32x8 => 5
    case Tx16x64 => 4 case Tx64x16 => 6
  }

  function HeightLog2(t: TxSize): nat
  {
    match t
    case Tx4x4 => 2 case Tx8x8 => 3 case Tx16x16 => 4 case Tx32x32 => 5 case Tx64x64 => 6
    case Tx4x8 => 3 case Tx8x4 => 2 case Tx8x16 => 4 case Tx16x8 => 3
    case Tx16x32 => 5 case Tx32x16 => 4 case Tx32x64 => 6 case Tx64x32 => 5
    case Tx4x16 => 4 case Tx16x4 => 2 case Tx8x32 => 5 case Tx32x8 => 3
    case Tx16x64 => 6 case Tx64x16 => 4
  }

  /** The TX_SIZE value of the square size with side 4 << k: TX_4X4 is 0 up
      to TX_64X64 at 4. */
  function SquareIndex(sideLog2: nat): nat
    requires 2 <= sideLog2
  {
    sideLog2 - 2
  }

  /** txsize_sqr_map: the largest square transform inside t. */
  function SqrIndex(t: TxSize): nat
  {
    SquareIndex(if WidthLog2(t) <= HeightLog2(t) then WidthLog2(t) else HeightLog2(t))
  }

  /** txsize_sqr_up_map: the smallest square transform containing t. */
  function SqrUpIndex(t: TxSize): nat
  {
    SquareIndex(if WidthLog2(t) >= HeightLog2(t) then WidthLog2(t) else HeightLog2(t))
  }

  /** The TX_32X32 index, the largest square CAT6 sizing distinguishes. */
  const Tx32x32Index: nat := 3

  /** (bits + 3) & ~3: bits rounded up to a multiple of 4. */
  function RoundUp4(bits: nat): nat
  {
    (bits + 3) / 4 * 4
  }

  /** av1_get_cat6_extrabits_size: the number of extra bits CAT6 carries for
      a transform size and bit depth. The square containing the transform is
      clamped to TX_32X32 (the build with 64-point transforms); bits is
      bit depth + 3 + that square's index, rounded up to a multiple of 4 and
      capped at CAT6_BIT_SIZE. */
  function Cat6ExtraBitsSize(t: TxSize, bitDepth: nat): (r: nat)
    ensures r <= Cat6BitSize
    ensures r == Cat6BitSize || (r % 4 == 0 && bitDepth + 3 <= r)
  {
    RoundUp4Facts(bitDepth + 3 + (if SqrUpIndex(t) > Tx32x32Index then Tx32x32Index else SqrUpIndex(t)));
    var sqrUp := SqrUpIndex(t);
    var clamped := if sqrUp > Tx32x32Index then Tx32x32Index else sqrUp;
    var bits := bitDepth + 3 + clamped;
    var rounded := RoundUp4(bits);
    if Cat6BitSize <= rounded then Cat6BitSize else rounded
  }

  /** The bit count before rounding: bit depth + 3 + the index of the
      containing square, at most TX_32X32's. */
  function Cat6Bits(t: TxSize, bitDepth: nat): nat
  {
    bitDepth + 3 + (if SqrUpIndex(t) > Tx32x32Index then Tx32x32Index else SqrUpIndex(t))
  }

  /** The CAT6 size never exceeds CAT6_BIT_SIZE; it reaches it exactly when
      the bit count is 17 or more, and otherwise it is the least multiple of
      4 that holds the bit count. */
  lemma Cat6ExtraBitsSizeBounds(t: TxSize, bitDepth: nat)
    ensures var r := Cat6ExtraBitsSize(t, bitDepth);
            var bits := Cat6Bits(t, bitDepth);
            && r <= Cat6BitSize
            && (r == Cat6BitSize <==> bits >= 17)
            && (bits < 17 ==> r % 4 == 0 && bits <= r <= bits + 3)
  {
    var bits := Cat6Bits(t, bitDepth);
    RoundUp4Facts(bits);
  }

  lemma RoundUp4Facts(bits: nat)
    ensures RoundUp4(bits) % 4 == 0
    ensures bits <= RoundUp4(bits) <= bits + 3
    ensures RoundUp4(bits) >= 18 <==> bits >= 17
  {
    var q := (bits + 3) / 4;
    assert 4 * q <= bits + 3 < 4 * q + 4;
  }

  /** Transforms whose containing square is 32x32 or larger, such as 64x64,
      64x16 and 32x8, get the same CAT6 size as 32x32. */
  lemma Cat6LargeTransforms(t: TxSize, bitDepth: nat)
    requires SqrUpIndex(t) >= Tx32x32Index
    ensures Cat6ExtraBitsSize(t, bitDepth) == Cat6ExtraBitsSize(Tx32x32, bitDepth)
  {
  }

  /** Sample values: 8-bit 4x4 needs 12 bits, 10-bit 32x32 needs 16, and
      12-bit 32x32 and 64x64 reach the cap of 18. */
  lemma Cat6Examples()
    ensures Cat6ExtraBitsSize(Tx4x4, 8) == 12
    ensures Cat6ExtraBitsSize(Tx32x32, 10) == 16
    ensures Cat6ExtraBitsSize(Tx32x32, 12) == 18
    ensures Cat6ExtraBitsSize(Tx64x64, 12) == 18
  {
  }

  /** get_txsize_entropy_ctx: the average of the inscribed and the containing
      square indices, rounded up. It lies between the two, equals both for a
      square transform, and for a 2:1 transform picks the larger. */
  function TxSizeEntropyCtx(t: TxSize): (k: nat)
    ensures SqrIndex(t) <= k <= SqrUpIndex(t)
    ensures SqrIndex(t) == SqrUpIndex(t) ==> k == SqrIndex(t)
    ensures SqrUpIndex(t) == SqrIndex(t) + 1 ==> k == SqrUpIndex(t)
  {
    (SqrIndex(t) + SqrUpIndex(t) + 1) / 2
  }

  /** The scan-position-to-band tables get_band_translate can return. */
  datatype BandTable = CoefbandTrans4x4 | CoefbandTrans4x8And8x4 | CoefbandTrans8x8Plus

  /** MAX_TX_SQUARE: the coefficient count of the largest transform. */
  const MaxTxSquare: nat := 64 * 64

  /** The number of entries of each band table. */
  function BandTableSize(b: BandTable): nat
  {
    match b
    case CoefbandTrans4x4 => 16
    case CoefbandTrans4x8And8x4 => 32
    case CoefbandTrans8x8Plus => MaxTxSquare
  }

  /** get_band_translate. */
  function BandTranslate(t: TxSize): (b: BandTable)
    ensures b == CoefbandTrans4x4 <==> t == Tx4x4
    ensures b == CoefbandTrans4x8And8x4 <==> t == Tx4x8 || t == Tx8x4
  {
    match t
    case Tx4x4 => CoefbandTrans4x4
    case Tx8x4 => CoefbandTrans4x8And8x4
    case Tx4x8 => CoefbandTrans4x8And8x4
    case _ => CoefbandTrans8x8Plus
  }

  /** The table get_band_translate picks has a band for every coefficient
      position of the transform. */
  lemma BandTranslateCovers(t: TxSize)
    ensures Pow2(WidthLog2(t)) * Pow2(HeightLog2(t)) <= BandTableSize(BandTranslate(t))
  {
    assert Pow2(2) == 4 && Pow2(3) == 8 && Pow2(4) == 16 && Pow2(5) == 32 && Pow2(6) == 64;
  }

  /** A context flag read from the first n bytes of a context array: the
      single-byte read, or a 2, 4, 8 or 2 x 8 byte load tested for nonzero. */
  function AnyNonZero(s: seq<int>, n: nat): (f: int)
    requires n <= |s|
    ensures f == 0 || f == 1
    ensures f == 1 <==> exists k :: 0 <= k < n && s[k] != 0
  {
    if n == 0 then 0
    else if s[n - 1] != 0 then 1
    else AnyNonZero(s, n - 1)
  }

  /** The number of bytes each side of get_entropy_context reads, case by
      case: 1 for a 4-pixel side, 2 for 8, 4 for 16, 8 for 32, 16 for 64. */
  function AboveBytes(t: TxSize): nat
  {
    match t
    case Tx4x4 => 1 case Tx4x8 => 1 case Tx8x4 => 2 case Tx8x16 => 2 case Tx16x8 => 4
    case Tx16x32 => 4 case Tx32x16 => 8 case Tx8x8 => 2 case Tx16x16 => 4 case Tx32x32 => 8
    case Tx64x64 => 16 case Tx32x64 => 8 case Tx64x32 => 16
    case Tx4x16 => 1 case Tx16x4 => 4 case Tx8x32 => 2 case Tx32x8 => 8
    case Tx16x64 => 4 case Tx64x16 => 16
  }

  function LeftBytes(t: TxSize): nat
  {
    match t
    case Tx4x4 => 1 case Tx4x8 => 2 case Tx8x4 => 1 case Tx8x16 => 4 case Tx16x8 => 2
    case Tx16x32 => 8 case Tx32x16 => 4 case Tx8x8 => 2 case Tx16x16 => 4 case Tx32x32 => 8
    case Tx64x64 => 16 case Tx32x64 => 16 case Tx64x32 => 8
    case Tx4x16 => 4 case Tx16x4 => 1 case Tx8x32 => 8 case Tx32x8 => 2
    case Tx16x64 => 16 case Tx64x16 => 4
  }

  /** get_entropy_context: whether any above context in the transform's
      width and any left context in its height is nonzero, combined. */
  function EntropyContext(t: TxSize, a: seq<int>, l: seq<int>): (c: int)
    requires AboveBytes(t) <= |a| && LeftBytes(t) <= |l|
    ensures 0 <= c <= 2
    ensures c == 0 <==> (forall k :: 0 <= k < AboveBytes(t) ==> a[k] == 0)
                        && (forall k :: 0 <= k < LeftBytes(t) ==> l[k] == 0)
    ensures c == 2 <==> (exists k :: 0 <= k < AboveBytes(t) && a[k] != 0)
                        && (exists k :: 0 <= k < LeftBytes(t) && l[k] != 0)
  {
    CombineEntropyContexts(AnyNonZero(a, AboveBytes(t)), AnyNonZero(l, LeftBytes(t)))
  }

  /** Each side reads one context byte per 4 pixels of the transform. */
  lemma ContextBytesPerSide(t: TxSize)
    ensures 4 * AboveBytes(t) == Pow2(WidthLog2(t))
    ensures 4 * LeftBytes(t) == Pow2(HeightLog2(t))
  {
    assert Pow2(2) == 4 && Pow2(3) == 8 && Pow2(4) == 16 && Pow2(5) == 32 && Pow2(6) == 64;
  }

  /** The context counts the sides with a nonzero context among the
      entries covering the transform: 0, 1 or 2, and 0 exactly when both
      sides are all zero. */
  lemma EntropyContextMeaning(t: TxSize, a: seq<int>, l: seq<int>)
    requires AboveBytes(t) <= |a| && LeftBytes(t) <= |l|
    ensures var c := EntropyContext(t, a, l);
            && 0 <= c <= 2
            && (c == 0 <==> (forall k :: 0 <= k < |a| && 4 * k < Pow2(WidthLog2(t)) ==> a[k] == 0)
                            && (forall k :: 0 <= k < |l| && 4 * k < Pow2(HeightLog2(t)) ==> l[k] == 0))
            && (c == 2 <==> (exists k :: 0 <= k < |a| && 4 * k < Pow2(WidthLog2(t)) && a[k] != 0)
                            && (exists k :: 0 <= k < |l| && 4 * k < Pow2(HeightLog2(t)) && l[k] != 0))
  {
    ContextBytesPerSide(t);
  }
}
