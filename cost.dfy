// The bit-cost tables of av1/encoder/cost.c: av1_prob_cost, the cost of a
// probability out of 256, and av1_cost_tokens_from_cdf, which turns a CDF
// into per-symbol costs.

module Cost {
  import opened FixedPoint

  /** av1_prob_cost[i] for 0 <= i < 256: round(-log2(i / 256) * 2^9), the
      cost in 1/512 bits of a probability of i / 256, with entry 0 a copy of
      entry 1. The 256 entries are held as 16 rows of 16. */
  const ProbCostRow0: seq<int> := [4096, 4096, 3584, 3284, 3072, 2907, 2772, 2659, 2560, 2473, 2395, 2325, 2260, 2201, 2147, 2096]
  const ProbCostRow1: seq<int> := [2048, 2003, 1961, 1921, 1883, 1847, 1813, 1780, 1748, 1718, 1689, 1661, 1635, 1609, 1584, 1559]
  const ProbCostRow2: seq<int> := [1536, 1513, 1491, 1470, 1449, 1429, 1409, 1390, 1371, 1353, 1335, 1318, 1301, 1284, 1268, 1252]
  const ProbCostRow3: seq<int> := [1236, 1221, 1206, 1192, 1177, 1163, 1149, 1136, 1123, 1110, 1097, 1084, 1072, 1059, 1047, 1036]
  const ProbCostRow4: seq<int> := [1024, 1013, 1001,  990,  979,  968,  958,  947,  937,  927,  917,  907,  897,  887,  878,  868]
  const ProbCostRow5: seq<int> := [ 859,  850,  841,  832,  823,  814,  806,  797,  789,  780,  772,  764,  756,  748,  740,  732]
  const ProbCostRow6: seq<int> := [ 724,  717,  709,  702,  694,  687,  680,  673,  665,  658,  651,  644,  637,  631,  624,  617]
  const ProbCostRow7: seq<int> := [ 611,  604,  598,  591,  585,  578,  572,  566,  560,  554,  547,  541,  535,  530,  524,  518]
  const ProbCostRow8: seq<int> := [ 512,  506,  501,  495,  489,  484,  478,  473,  467,  462,  456,  451,  446,  441,  435,  430]
  const ProbCostRow9: seq<int> := [ 425,  420,  415,  410,  405,  400,  395,  390,  385,  380,  375,  371,  366,  361,  356,  352]
  const ProbCostRow10: seq<int> := [ 347,  343,  338,  333,  329,  324,  320,  316,  311,  307,  302,  298,  294,  289,  285,  281]
  const ProbCostRow11: seq<int> := [ 277,  273,  268,  264,  260,  256,  252,  248,  244,  240,  236,  232,  228,  224,  220,  216]
  const ProbCostRow12: seq<int> := [ 212,  209,  205,  201,  197,  194,  190,  186,  182,  179,  175,  171,  168,  164,  161,  157]
  const ProbCostRow13: seq<int> := [ 153,  150,  146,  143,  139,  136,  132,  129,  125,  122,  119,  115,  112,  109,  105,  102]
  const ProbCostRow14: seq<int> := [  99,   95,   92,   89,   86,   82,   79,   76,   73,   70,   66,   63,   60,   57,   54,   51]
  const ProbCostRow15: seq<int> := [  48,   45,   42,   38,   35,   32,   29,   26,   23,   20,   18,   15,   12,    9,    6,    3]

  function ProbCostRow(r: int): seq<int>
  {
    match r
      case 0 => ProbCostRow0
      case 1 => ProbCostRow1
      case 2 => ProbCostRow2
      case 3 => ProbCostRow3
      case 4 => ProbCostRow4
      case 5 => ProbCostRow5
      case 6 => ProbCostRow6
      case 7 => ProbCostRow7
      case 8 => ProbCostRow8
      case 9 => ProbCostRow9
      case 10 => ProbCostRow10
      case 11 => ProbCostRow11
      case 12 => ProbCostRow12
      case 13 => ProbCostRow13
      case 14 => ProbCostRow14
      case _ => ProbCostRow15
  }

  function ProbCost(i: int): int
    requires 0 <= i < 256
  {
    ProbCostRow(i / 16)[i % 16]
  }

  predicate NonIncreasing(s: seq<int>)
  {
    forall c :: 0 <= c < |s| - 1 ==> s[c] >= s[c + 1]
  }

  /** Rows 0 .. 3 fall within and into the next row. */
  lemma ProbCostRows0()
    ensures NonIncreasing(ProbCostRow0)
    ensures ProbCostRow0[15] >= ProbCostRow1[0]
    ensures NonIncreasing(ProbCostRow1)
    ensures ProbCostRow1[15] >= ProbCostRow2[0]
    ensures NonIncreasing(ProbCostRow2)
    ensures ProbCostRow2[15] >= ProbCostRow3[0]
    ensures NonIncreasing(ProbCostRow3)
    ensures ProbCostRow3[15] >= ProbCostRow4[0]
  {
  }

  /** Rows 4 .. 7 fall within and into the next row. */
  lemma ProbCostRows1()
    ensures NonIncreasing(ProbCostRow4)
    ensures ProbCostRow4[15] >= ProbCostRow5[0]
    ensures NonIncreasing(ProbCostRow5)
    ensures ProbCostRow5[15] >= ProbCostRow6[0]
    ensures NonIncreasing(ProbCostRow6)
    ensures ProbCostRow6[15] >= ProbCostRow7[0]
    ensures NonIncreasing(ProbCostRow7)
    ensures ProbCostRow7[15] >= ProbCostRow8[0]
  {
  }

  /** Rows 8 .. 11 fall within and into the next row. */
  lemma ProbCostRows2()
    ensures NonIncreasing(ProbCostRow8)
    ensures ProbCostRow8[15] >= ProbCostRow9[0]
    ensures NonIncreasing(ProbCostRow9)
    ensures ProbCostRow9[15] >= ProbCostRow10[0]
    ensures NonIncreasing(ProbCostRow10)
    ensures ProbCostRow10[15] >= ProbCostRow11[0]
    ensures NonIncreasing(ProbCostRow11)
    ensures ProbCostRow11[15] >= ProbCostRow12[0]
  {
  }

  /** Rows 12 .. 15 fall within and into the next row. */
  lemma ProbCostRows3()
    ensures NonIncreasing(ProbCostRow12)
    ensures ProbCostRow12[15] >= ProbCostRow13[0]
    ensures NonIncreasing(ProbCostRow13)
    ensures ProbCostRow13[15] >= ProbCostRow14[0]
    ensures NonIncreasing(ProbCostRow14)
    ensures ProbCostRow14[15] >= ProbCostRow15[0]
    ensures NonIncreasing(ProbCostRow15)
  {
  }

  /** Every row has 16 entries, falls, and its last entry is at least the
      first of the next row. */
  lemma ProbCostRowFacts(r: int)
    requires 0 <= r < 16
    ensures |ProbCostRow(r)| == 16 && NonIncreasing(ProbCostRow(r))
    ensures r < 15 ==> ProbCostRow(r)[15] >= ProbCostRow(r + 1)[0]
  {
    ProbCostRows0();
    ProbCostRows1();
    ProbCostRows2();
    ProbCostRows3();
  }

  /** Each entry from index 1 on is at least the next one. */
  lemma ProbCostStep(i: int)
    requires 1 <= i < 255
    ensures ProbCost(i) >= ProbCost(i + 1)
  {
    var r, c := i / 16, i % 16;
    ProbCostRowFacts(r);
    if c == 15 {
      assert (i + 1) / 16 == r + 1 && (i + 1) % 16 == 0;
    } else {
      assert (i + 1) / 16 == r && (i + 1) % 16 == c + 1;
    }
  }

  /** A higher probability never costs more: the table is non-increasing
      over indices 1 .. 255. */
  lemma {:induction false} ProbCostNonIncreasing(i: int, j: int)
    requires 1 <= i <= j < 256
    ensures ProbCost(i) >= ProbCost(j)
    decreases j - i
  {
    if i < j {
      ProbCostStep(i);
      ProbCostNonIncreasing(i + 1, j);
    }
  }

  /** Entry 0 repeats entry 1; the costs run from 4096 (8 bits, for one
      chance in 256) down to 3 (for 255 / 256), so every entry is positive
      and at most 4096. */
  lemma ProbCostRange()
    ensures ProbCost(0) == ProbCost(1) == 4096 && ProbCost(255) == 3
    ensures forall i :: 0 <= i < 256 ==> 3 <= ProbCost(i) <= 4096
  {
    forall i | 1 <= i < 256
      ensures 3 <= ProbCost(i) <= 4096
    {
      ProbCostNonIncreasing(1, i);
      ProbCostNonIncreasing(i, 255);
    }
  }

  /** At the powers of two the costs are exact: probability 2^k / 256 costs
      8 - k bits, (8 - k) * 512 in units of 1/512 bit. */
  lemma ProbCostPowersOfTwo()
    ensures forall k :: 0 <= k <= 7 ==> Pow2(k) < 256 && ProbCost(Pow2(k)) == (8 - k) * 512
  {
    assert Pow2(0) == 1 && Pow2(1) == 2 && Pow2(2) == 4 && Pow2(3) == 8;
    assert Pow2(4) == 16 && Pow2(5) == 32 && Pow2(6) == 64 && Pow2(7) == 128;
  }

  datatype Option<T> = None | Some(value: T)

  /** The definitions av1_cost_tokens_from_cdf uses from elsewhere:
      AOM_ICDF, CDF_PROB_TOP, EC_MIN_PROB and av1_cost_symbol. */
  datatype CdfModel = CdfModel(icdf: int -> int, probTop: int, minProb: int, costSymbol: int -> int)

  /** The value that marks the last entry of a CDF: AOM_ICDF(CDF_PROB_TOP). */
  function EndMark(m: CdfModel): int
  {
    m.icdf(m.probTop)
  }

  /** The first index at or after i whose entry is the end mark. */
  function EndIndex(cdf: seq<int>, mark: int, i: nat): (k: nat)
    requires i <= |cdf| && exists k :: i <= k < |cdf| && cdf[k] == mark
    ensures i <= k < |cdf| && cdf[k] == mark
    ensures forall j :: i <= j < k ==> cdf[j] != mark
    decreases |cdf| - i
  {
    if cdf[i] == mark then i else EndIndex(cdf, mark, i + 1)
  }

  /** The cumulative probability before symbol i: 0 for the first symbol,
      else AOM_ICDF of the previous entry, as read (never the floored
      probability). */
  function Prev(m: CdfModel, cdf: seq<int>, i: nat): int
    requires i <= |cdf|
  {
    if i == 0 then 0 else m.icdf(cdf[i - 1])
  }

  /** The probability of symbol i: the difference of consecutive cumulative
      values, raised to EC_MIN_PROB if it is smaller. */
  function SymbolProb(m: CdfModel, cdf: seq<int>, i: nat): (p: int)
    requires i < |cdf|
    ensures p >= m.minProb && p >= m.icdf(cdf[i]) - Prev(m, cdf, i)
    ensures p == m.minProb || p == m.icdf(cdf[i]) - Prev(m, cdf, i)
  {
    Max(m.minProb, m.icdf(cdf[i]) - Prev(m, cdf, i))
  }

  /** The cumulative values of symbols 0 .. n rise and stay at most
      CDF_PROB_TOP. */
  predicate Rises(m: CdfModel, cdf: seq<int>, n: nat)
    requires n < |cdf|
  {
    forall i :: 0 <= i <= n ==> Prev(m, cdf, i) <= m.icdf(cdf[i]) <= m.probTop
  }

  /** A CDF the function can walk: it holds the end mark, and up to the
      first one the cumulative values rise from 0 to at most CDF_PROB_TOP,
      below 2^16, so the 16-bit difference never wraps. */
  predicate WellFormedCdf(m: CdfModel, cdf: seq<int>)
  {
    && 0 <= m.probTop < 65536
    && (exists k :: 0 <= k < |cdf| && cdf[k] == EndMark(m))
    && Rises(m, cdf, EndIndex(cdf, EndMark(m), 0))
  }

  /** On a well-formed CDF the difference the source takes in 16 bits is
      the exact one: the cumulative values up to the end mark lie in
      [0, CDF_PROB_TOP], so ICDF(cdf[i]) - prev neither goes negative nor
      wraps. */
  lemma {:induction false} DifferenceFitsSixteenBits(m: CdfModel, cdf: seq<int>, i: nat)
    requires WellFormedCdf(m, cdf) && i <= EndIndex(cdf, EndMark(m), 0)
    ensures 0 <= Prev(m, cdf, i) <= m.icdf(cdf[i]) <= m.probTop < 65536
    ensures (m.icdf(cdf[i]) - Prev(m, cdf, i)) % 65536 == m.icdf(cdf[i]) - Prev(m, cdf, i)
  {
    if i > 0 {
      DifferenceFitsSixteenBits(m, cdf, i - 1);
    }
  }

  /** The index of costs written for symbol i. */
  function Target(invMap: Option<seq<int>>, i: nat): int
    requires invMap.Some? ==> i < |invMap.value|
  {
    if invMap.Some? then invMap.value[i] else i
  }

  /** Every symbol up to the end mark writes inside costs. */
  predicate TargetsInRange(invMap: Option<seq<int>>, n: nat, size: nat)
  {
    && (invMap.Some? ==> n <= |invMap.value|)
    && forall i :: 0 <= i < n ==> 0 <= Target(invMap, i) < size
  }

  /** costs after symbols 0 .. n - 1 have written their costs, in order. */
  function CostsAfter(costs: seq<int>, m: CdfModel, cdf: seq<int>, invMap: Option<seq<int>>, n: nat): (c: seq<int>)
    requires n <= |cdf| && TargetsInRange(invMap, n, |costs|)
    ensures |c| == |costs|
  {
    if n == 0 then costs
    else CostsAfter(costs, m, cdf, invMap, n - 1)[Target(invMap, n - 1) := m.costSymbol(SymbolProb(m, cdf, n - 1))]
  }

  /** An entry no symbol writes keeps its value. */
  lemma {:induction false} CostsAfterUntouched(costs: seq<int>, m: CdfModel, cdf: seq<int>, invMap: Option<seq<int>>,
                                               n: nat, k: int)
    requires n <= |cdf| && TargetsInRange(invMap, n, |costs|)
    requires 0 <= k < |costs| && forall i :: 0 <= i < n ==> Target(invMap, i) != k
    ensures CostsAfter(costs, m, cdf, invMap, n)[k] == costs[k]
  {
    if n > 0 {
      CostsAfterUntouched(costs, m, cdf, invMap, n - 1, k);
    }
  }

  /** The entry a symbol writes holds that symbol's cost, unless a later
      symbol writes the same entry. */
  lemma {:induction false} CostsAfterWritten(costs: seq<int>, m: CdfModel, cdf: seq<int>, invMap: Option<seq<int>>,
                                             n: nat, i: nat)
    requires n <= |cdf| && TargetsInRange(invMap, n, |costs|)
    requires i < n && forall j :: i < j < n ==> Target(invMap, j) != Target(invMap, i)
    ensures CostsAfter(costs, m, cdf, invMap, n)[Target(invMap, i)] == m.costSymbol(SymbolProb(m, cdf, i))
  {
    if i < n - 1 {
      CostsAfterWritten(costs, m, cdf, invMap, n - 1, i);
    }
  }

  /** Without inv_map, entry i holds the cost of symbol i for every symbol up
      to the end mark, and the entries past it are untouched. */
  lemma CostsAfterDirect(costs: seq<int>, m: CdfModel, cdf: seq<int>, n: nat)
    requires n <= |cdf| && TargetsInRange(None, n, |costs|)
    ensures forall i :: 0 <= i < n ==> CostsAfter(costs, m, cdf, None, n)[i] == m.costSymbol(SymbolProb(m, cdf, i))
    ensures forall k :: n <= k < |costs| ==> CostsAfter(costs, m, cdf, None, n)[k] == costs[k]
  {
    forall i | 0 <= i < n
      ensures CostsAfter(costs, m, cdf, None, n)[i] == m.costSymbol(SymbolProb(m, cdf, i))
    {
      CostsAfterWritten(costs, m, cdf, None, n, i);
    }
    forall k | n <= k < |costs|
      ensures CostsAfter(costs, m, cdf, None, n)[k] == costs[k]
    {
      CostsAfterUntouched(costs, m, cdf, None, n, k);
    }
  }

  /** The sum of the probabilities of symbols 0 .. n - 1. */
  function SumProbs(m: CdfModel, cdf: seq<int>, n: nat): int
    requires n <= |cdf|
  {
    if n == 0 then 0 else SumProbs(m, cdf, n - 1) + SymbolProb(m, cdf, n - 1)
  }

  /** Because prev is the unfloored cumulative value, a floor raises only its
      own symbol: the probabilities of symbols 0 .. n - 1 add up to at least
      the cumulative value of symbol n - 1, and to exactly that when no
      difference is below EC_MIN_PROB. */
  lemma {:induction false} ProbsTelescope(m: CdfModel, cdf: seq<int>, n: nat)
    requires 1 <= n <= |cdf|
    ensures SumProbs(m, cdf, n) >= m.icdf(cdf[n - 1])
    ensures (forall i :: 0 <= i < n ==> m.icdf(cdf[i]) - Prev(m, cdf, i) >= m.minProb) ==>
              SumProbs(m, cdf, n) == m.icdf(cdf[n - 1])
  {
    if n > 1 {
      ProbsTelescope(m, cdf, n - 1);
    }
  }

  /** av1_cost_tokens_from_cdf: walk the CDF up to and including the first
      entry equal to the end mark, writing the cost of each symbol's
      probability to costs[inv_map[i]], or to costs[i] without inv_map. */
  method CostTokensFromCdf(costs: array<int>, cdf: seq<int>, m: CdfModel, invMap: Option<seq<int>>)
    requires WellFormedCdf(m, cdf)
    requires TargetsInRange(invMap, EndIndex(cdf, EndMark(m), 0) + 1, costs.Length)
    modifies costs
    ensures costs[..] == CostsAfter(old(costs[..]), m, cdf, invMap, EndIndex(cdf, EndMark(m), 0) + 1)
  {
    ghost var stop := EndIndex(cdf, EndMark(m), 0);
    var prev := 0;
    var i := 0;
    while true
      invariant 0 <= i <= stop
      invariant prev == Prev(m, cdf, i)
      invariant costs[..] == CostsAfter(old(costs[..]), m, cdf, invMap, i)
      decreases stop - i
    {
      ghost var written := CostsAfter(old(costs[..]), m, cdf, invMap, i);
      assert 0 <= Target(invMap, i) < costs.Length;
      var p15 := m.icdf(cdf[i]) - prev;
      p15 := if p15 < m.minProb then m.minProb else p15;
      assert p15 == SymbolProb(m, cdf, i);
      prev := m.icdf(cdf[i]);
      if invMap.Some? {
        costs[invMap.value[i]] := m.costSymbol(p15);
      } else {
        costs[i] := m.costSymbol(p15);
      }
      assert costs[..] == written[Target(invMap, i) := m.costSymbol(p15)];
      if cdf[i] == m.icdf(m.probTop) {
        break;
      }
      i := i + 1;
    }
  }
}
