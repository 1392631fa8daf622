// The restoration constants and tables the self-guided filter reads. Their
// values live in restoration.h / restoration.c, which are not part of this
// model, so they are carried as a Config value; the predicates below state
// only what the filter's arithmetic relies on.

module SgrConfig {
  import opened FixedPoint

  /** One entry of sgr_params: radius and regularisation index of each pass. */
  datatype SgrParamSet = SgrParamSet(r1: nat, e1: nat, r2: nat, e2: nat)

  datatype Config = Config(
    sgrBits: nat,               // SGRPROJ_SGR_BITS; SGRPROJ_SGR is 1 << sgrBits
    rstBits: nat,               // SGRPROJ_RST_BITS: fractional bits of the filtered planes
    prjBits: nat,               // SGRPROJ_PRJ_BITS: fractional bits of the projection weights
    mtableBits: nat,            // SGRPROJ_MTABLE_BITS
    recipBits: nat,             // SGRPROJ_RECIP_BITS
    borderVert: nat,            // SGRPROJ_BORDER_VERT
    borderHorz: nat,            // SGRPROJ_BORDER_HORZ
    mtable: seq<seq<int>>,      // sgrproj_mtable[eps - 1][n - 1]
    oneByX: seq<int>,           // one_by_x[n - 1]
    xByXPlus1: seq<int>,        // x_by_xplus1[z], z in [0, 255]
    sgrParams: seq<SgrParamSet>, // sgr_params[eps]
    tilePelsMax: nat)           // RESTORATION_TILEPELS_MAX

  /** nb in final_filter: the cross-sum weights total 32 = 2^nb. */
  const NB: nat := 5

  /** SGRPROJ_SGR, the full-scale value of the weight a. */
  function Sgr(cfg: Config): nat
  {
    Pow2(cfg.sgrBits)
  }

  /** n = (2r + 1)^2, the number of samples in a window of radius r. */
  function WindowSize(r: nat): (n: nat)
    ensures n >= 1
  {
    (2 * r + 1) * (2 * r + 1)
  }

  /** The table properties the filter's index and range arithmetic uses. */
  predicate ValidTables(cfg: Config)
  {
    && |cfg.xByXPlus1| == 256
    && (forall z :: 0 <= z < 256 ==> 0 <= cfg.xByXPlus1[z] <= Sgr(cfg))
    && (forall k :: 0 <= k < |cfg.oneByX| ==> 0 <= cfg.oneByX[k])
    && (forall e, k :: 0 <= e < |cfg.mtable| && 0 <= k < |cfg.mtable[e]| ==> 0 <= cfg.mtable[e][k])
    && cfg.rstBits <= cfg.sgrBits + NB
  }

  /** A pass with radius r and regularisation index e can run: the border
      holds the window plus the integral image's extra row and column (the
      assertion before calc_ab), and the table lookups at e - 1 and n - 1
      are in range. */
  predicate ValidPass(cfg: Config, r: nat, e: nat)
  {
    && r + 1 <= Min(cfg.borderVert, cfg.borderHorz)
    && 1 <= e <= |cfg.mtable|
    && WindowSize(r) <= |cfg.mtable[e - 1]|
    && WindowSize(r) <= |cfg.oneByX|
  }

  predicate ValidParams(cfg: Config, ps: SgrParamSet)
  {
    ValidPass(cfg, ps.r1, ps.e1) && ValidPass(cfg, ps.r2, ps.e2)
  }

  /** Array position of logical pixel (0, 0) in the A, B, C, D buffers: one
      zero row and column of the integral image, then the border. */
  function OriginY(cfg: Config): nat { cfg.borderVert + 1 }
  function OriginX(cfg: Config): nat { cfg.borderHorz + 1 }
}
