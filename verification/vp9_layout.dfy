/** The 2039 bytes of a VP9 frame context, table after table, and the enumerations that steer its updates. */
module Vp9Layout {
  import opened Words

  const CTX_SIZE := 2039

  const TX8 := 0
  const TX16 := TX8 + 2
  const TX32 := TX16 + 4
  const COEF := TX32 + 6
  const SKIP := COEF + 4 * 2 * 2 * 6 * 6 * 3
  const INTER_MODE := SKIP + 3
  const INTERP_FILTER := INTER_MODE + 7 * 3
  const IS_INTER := INTERP_FILTER + 4 * 2
  const COMP_MODE := IS_INTER + 4
  const SINGLE_REF := COMP_MODE + 5
  const COMP_REF := SINGLE_REF + 5 * 2
  const Y_MODE := COMP_REF + 5
  const UV_MODE := Y_MODE + 4 * 9
  const PARTITION := UV_MODE + 10 * 9
  const MV := PARTITION + 16 * 3
  const MV_SIGN := MV + 3
  const MV_CLASSES := MV_SIGN + 2
  const MV_CLASS0_BIT := MV_CLASSES + 20
  const MV_BITS := MV_CLASS0_BIT + 2
  const MV_CLASS0_FR := MV_BITS + 20
  const MV_FR := MV_CLASS0_FR + 12
  const MV_CLASS0_HP := MV_FR + 6
  const MV_HP := MV_CLASS0_HP + 2

  /** The offsets, counted out. */
  lemma Offsets()
    ensures TX8 == 0 && TX16 == 2 && TX32 == 6 && COEF == 12 && SKIP == 1740 && INTER_MODE == 1743
    ensures INTERP_FILTER == 1764 && IS_INTER == 1772 && COMP_MODE == 1776 && SINGLE_REF == 1781 && COMP_REF == 1791
    ensures Y_MODE == 1796 && UV_MODE == 1832 && PARTITION == 1922 && MV == 1970
    ensures MV_SIGN == 1973 && MV_CLASSES == 1975 && MV_CLASS0_BIT == 1995 && MV_BITS == 1997
    ensures MV_CLASS0_FR == 2017 && MV_FR == 2029 && MV_CLASS0_HP == 2035 && MV_HP == 2037 && CTX_SIZE == 2039
  {
  }

  /** The coefficient table of one transform size: 2 block types, intra and inter, 6 bands, 6 contexts, 3 nodes. */
  const TX_COEFS := 432
  const BLOCK_COEFS := 108
  const BAND_COEFS := 18

  type Context = c: seq<byte> | |c| == CTX_SIZE witness seq(CTX_SIZE, _ => 0)

  /** Band 0 has three contexts; the three after them are padding that nothing codes. */
  predicate Unused(k: int) {
    COEF <= k < SKIP && 9 <= (k - COEF) % BLOCK_COEFS < 18
  }

  /** Every coded probability lies in 1..255 and the padding is zero. */
  predicate Usable(ctx: Context) {
    forall k | 0 <= k < CTX_SIZE :: if Unused(k) then ctx[k] == 0 else ctx[k] >= 1
  }

  const TX_MODE_SELECT := 4
  const INTERP_FILTER_SWITCHABLE := 4

  datatype ReferenceMode = SingleReference | CompoundReference | Select

  /** What the adaptation reads from the frame and compressed headers. */
  datatype FrameHeader = FrameHeader(
    keyFrame: bool, intraOnly: bool, errorResilient: bool, highPrecisionMv: bool,
    refreshFrameCtx: bool, parallelDecMode: bool,
    frameContextIdx: nat, resetFrameContext: nat,
    interpolationFilter: nat, referenceMode: ReferenceMode, txMode: nat)
  {
    predicate FrameIsIntra() {
      keyFrame || intraOnly
    }

    predicate Valid() {
      frameContextIdx < 4 && txMode <= TX_MODE_SELECT
    }
  }
}
