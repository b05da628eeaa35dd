/**
 * `decoder::predict_texture_view`: a view with references gets the
 * warp-and-merge prediction, refined by the global sparse filter when the
 * view uses it; a view without references keeps the zero-initialised
 * buffer it was given.
 */
module TexturePrediction {
  import opened Wrappers
  import opened Planes
  import opened SparseFilter
  import opened MergeDispatch

  /** The view fields the prediction step reads. */
  datatype PredictionView = PredictionView(
    rows: nat, cols: nat, ncomp: nat, mergeMode: int, useGlobalSparse: bool)

  /** The predicted texture, the merge dispatcher's calls, and the filters consumed. */
  datatype Prediction = Prediction(texture: Texture, mergeSteps: seq<MergeStep>, filtersConsumed: nat)

  /** Components the colour buffer is allocated with before prediction. */
  const BufferComponents := 3

  /**
   * What the filter pass needs of its inputs in the decoder: the regressor
   * shapes, at most `ncomp` filtered components (the filtered copy holds
   * `ncomp` of them, and only those are copied back), a colour buffer with
   * at least `ncomp` components, and the pass working at the view's size.
   */
  predicate SparseInputsFit(v: PredictionView, refs: seq<Texture>, merged: Texture, s: Settings)
  {
    && TextureInputsValid(merged, refs, s)
    && s.ncSparse <= v.ncomp <= |merged|
    && s.rows == v.rows && s.cols == v.cols
  }

  /**
   * Prediction of view `v` from its references' reconstructed textures
   * `refs` (one per entry of `references`, so `|refs|` is n_references).
   * `merged` is what the warp and merge kernels leave in the colour buffer;
   * `seg` the view's segmentation; `filters` its sparse filter bank.
   */
  function PredictTexture(v: PredictionView, refs: seq<Texture>, merged: Texture, seg: Segmentation,
                          filters: seq<SparseFilter>, kernel: Kernel, s: Settings): (r: Result<Prediction, SparseError>)
    requires |refs| > 0 && v.useGlobalSparse ==> SparseInputsFit(v, refs, merged, s)
    ensures |refs| == 0 ==> r == Ok(Prediction(ZeroTexture(v.rows, v.cols, BufferComponents), [], 0))
    ensures |refs| > 0 && !v.useGlobalSparse ==> r == Ok(Prediction(merged, MergePlan(v.mergeMode, v.ncomp), 0))
    ensures |refs| > 0 && v.useGlobalSparse ==>
      (r.Ok? <==> s.ncSparse * NumRegions(seg) <= |filters|)
    ensures |refs| > 0 && v.useGlobalSparse && r.Ok? ==>
      && r.value.mergeSteps == MergePlan(v.mergeMode, v.ncomp)
      && r.value.filtersConsumed == s.ncSparse * NumRegions(seg)
      && r.value.texture == ClosedFormPass(merged, refs, seg, filters, kernel, s)
  {
    if |refs| == 0 then
      Ok(Prediction(ZeroTexture(v.rows, v.cols, BufferComponents), [], 0))
    else
      var steps := MergePlan(v.mergeMode, v.ncomp);
      if !v.useGlobalSparse then
        Ok(Prediction(merged, steps, 0))
      else
        PassCharacterized(merged, refs, seg, filters, kernel, s);
        var f :- SparsePass(merged, refs, seg, filters, kernel, s);
        Ok(Prediction(f.texture, steps, f.consumed))
  }

  /**
   * A view without references does not depend on anything else: whatever
   * the merge output, segmentation, filters or kernel, its texture is the
   * zero buffer.
   */
  lemma NoReferencesNoDependence(v: PredictionView, m1: Texture, m2: Texture,
                                 seg1: Segmentation, seg2: Segmentation,
                                 f1: seq<SparseFilter>, f2: seq<SparseFilter>,
                                 k1: Kernel, k2: Kernel, s1: Settings, s2: Settings)
    ensures PredictTexture(v, [], m1, seg1, f1, k1, s1) == PredictTexture(v, [], m2, seg2, f2, k2, s2)
    ensures forall c, i, j :: 0 <= c < BufferComponents && 0 <= i < v.rows && 0 <= j < v.cols ==>
      PredictTexture(v, [], m1, seg1, f1, k1, s1).value.texture[c][i][j] == 0
  {
  }

  /**
   * The filter touches only components below nc_sparse: every other
   * component of the prediction is the merge output unchanged, and the
   * filtered ones hold samples in [0, 2^bitDepth - 1].
   */
  lemma FilterLeavesOtherComponents(v: PredictionView, refs: seq<Texture>, merged: Texture, seg: Segmentation,
                                    filters: seq<SparseFilter>, kernel: Kernel, s: Settings, c: nat, i: nat, j: nat)
    requires |refs| > 0 && v.useGlobalSparse
    requires SparseInputsFit(v, refs, merged, s)
    requires PredictTexture(v, refs, merged, seg, filters, kernel, s).Ok?
    ensures |PredictTexture(v, refs, merged, seg, filters, kernel, s).value.texture| == |merged|
    ensures KernelKeepsShape(kernel, s) && c < s.ncSparse ==>
      Shaped(PredictTexture(v, refs, merged, seg, filters, kernel, s).value.texture[c], v.rows, v.cols)
    ensures s.ncSparse <= c < |merged| ==>
      PredictTexture(v, refs, merged, seg, filters, kernel, s).value.texture[c] == merged[c]
    ensures c < s.ncSparse
            && i < |PredictTexture(v, refs, merged, seg, filters, kernel, s).value.texture[c]|
            && j < |PredictTexture(v, refs, merged, seg, filters, kernel, s).value.texture[c][i]| ==>
      0 <= PredictTexture(v, refs, merged, seg, filters, kernel, s).value.texture[c][i][j] <= MaxSample(s.bitDepth)
  {
  }
}
