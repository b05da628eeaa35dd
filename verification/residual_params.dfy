/**
 * The parameters under which a view's decoded texture residual is
 * dequantised and added to its prediction.
 */
module ResidualParams {
  import opened Planes
  import opened ResidualGate
  import opened Wrappers

  /** Bit depth of the residual images and of the corrected texture. */
  const ResidualBitDepth: nat := 10

  /** Bit depth, quantisation step `Q` and DC offset handed to `dequantize_residual`. */
  datatype Dequantization = Dequantization(bitDepth: nat, q: int, offset: int)

  /** The dequantiser's parameters and the bit depth `apply_residual` clips the sum to. */
  datatype Correction = Correction(dequantization: Dequantization, applyBitDepth: nat)

  /**
   * Levels 0 and 1 carry the residual unquantised and unshifted; deeper
   * levels carry it halved and shifted up by the top of the 10-bit range.
   */
  function DequantizationFor(level: int): (d: Dequantization)
    ensures d.bitDepth == ResidualBitDepth == 10
    ensures d.q == 1 || d.q == 2
    ensures d.q == 1 <==> level <= 1
    ensures d.q == 1 ==> d.offset == 0
    ensures d.q == 2 ==> d.offset == 1023 == MaxSample(ResidualBitDepth)
  {
    if level > 1 then Dequantization(ResidualBitDepth, 2, Pow2(ResidualBitDepth) - 1)
    else Dequantization(ResidualBitDepth, 1, 0)
  }

  /**
   * Whether, and how, a view's texture is corrected after prediction: the
   * residual is dequantised and applied at the same 10-bit depth, and a
   * shifted residual is shifted by the top of that range.
   */
  function ResidualCorrection(v: ViewMeta): (r: Option<Correction>)
    ensures r.None? <==> !v.hasColorResidual
    ensures r.Some? ==> r.value.dequantization == DequantizationFor(v.level as int)
    ensures r.Some? ==> r.value.dequantization.bitDepth == r.value.applyBitDepth == 10
    ensures r.Some? && r.value.dequantization.q == 2 ==>
      r.value.dequantization.offset == MaxSample(r.value.applyBitDepth)
  {
    if v.hasColorResidual then Some(Correction(DequantizationFor(v.level as int), ResidualBitDepth)) else None
  }
}
