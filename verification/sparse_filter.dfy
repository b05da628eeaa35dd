/**
 * The global sparse filter pass of `decoder::predict_texture_view`: for
 * each of the first `nc_sparse` components, the regions of the view's
 * segmentation are filtered in ascending order, each with the next filter
 * of the view's bank; the accumulated result is clipped, rounded half up,
 * cropped and written over that component only.
 */
module SparseFilter {
  import opened Wrappers
  import opened Planes

  /** One region's quantised filter as carried in the bitstream. */
  datatype SparseFilter = SparseFilter(quantizedCoefficients: seq<int>, regressorIndexes: seq<int>)

  /** The segmentation's label vector and region count (regions are 1..numberOfRegions). */
  datatype Segmentation = Segmentation(labels: seq<int>, numberOfRegions: int)

  /**
   * Per-view parameters of the pass: `nc_sparse`, `SP_B`, the view size,
   * the padding `NNt`, the neighbourhood `Ms`, `SPARSE_BIAS_TERM` and
   * `BIT_DEPTH`.
   */
  datatype Settings = Settings(
    ncSparse: nat, spB: bool, rows: nat, cols: nat,
    nnt: nat, ms: int, biasTerm: int, bitDepth: nat)

  /** Where a regressor plane comes from: the view itself, or its k-th reference. */
  datatype RegressorSource = OwnView | Reference(position: nat)

  /** The arguments of one call of the (unmodelled) filter kernel. */
  datatype FilterCall = FilterCall(
    regressors: seq<Plane>, labels: seq<int>, region: int,
    paddedRows: nat, paddedCols: nat, ms: int, nnt: nat, biasTerm: int,
    filter: SparseFilter)

  /**
   * applyGlobalSparseFilter_vec_reg: given a call and the accumulated
   * padded output, the updated accumulated output.
   */
  type Kernel = (FilterCall, seq<seq<real>>) -> seq<seq<real>>

  datatype SparseError = FilterIndexOutOfRange(index: nat)

  /**
   * The kernel updates the accumulator in place: the decoder's
   * `filtered_icomp` is a vector of (nr + 2 NNt) x (nc + 2 NNt) samples
   * that the kernel writes into and never resizes.
   */
  ghost predicate KernelKeepsShape(kernel: Kernel, s: Settings)
  {
    forall call, acc :: Shaped(acc, s.rows + 2 * s.nnt, s.cols + 2 * s.nnt) ==>
      Shaped(kernel(call, acc), s.rows + 2 * s.nnt, s.cols + 2 * s.nnt)
  }

  /** The filtered texture and the number of filters the pass consumed. */
  datatype Filtered = Filtered(texture: Texture, consumed: nat)

  /** The regions the pass visits: none when the count is not positive. */
  function NumRegions(seg: Segmentation): nat
  {
    if seg.numberOfRegions > 0 then seg.numberOfRegions else 0
  }

  /** The regressor list: the view's own component, then each reference's iff SP_B. */
  function RegressorSources(nReferences: nat, spB: bool): (r: seq<RegressorSource>)
    ensures |r| == 1 + (if spB then nReferences else 0)
    ensures r[0] == OwnView
    ensures forall k :: 1 <= k < |r| ==> r[k] == Reference(k - 1)
  {
    [OwnView] + (if spB then seq(nReferences, k requires 0 <= k < nReferences => Reference(k)) else [])
  }

  predicate TextureInputsValid(own: Texture, refs: seq<Texture>, s: Settings)
  {
    && s.ncSparse <= |own|
    && s.bitDepth <= 16
    && (forall c :: 0 <= c < s.ncSparse ==> Shaped(own[c], s.rows, s.cols))
    && (s.spB ==> forall k :: 0 <= k < |refs| ==>
          s.ncSparse <= |refs[k]| && forall c :: 0 <= c < s.ncSparse ==> Shaped(refs[k][c], s.rows, s.cols))
  }

  function SourceTexture(own: Texture, refs: seq<Texture>, src: RegressorSource): Texture
  {
    match src
    case OwnView => own
    case Reference(k) => if k < |refs| then refs[k] else []
  }

  /** The zero-padded regressor planes for component `c`, in regressor-list order. */
  function Regressors(own: Texture, refs: seq<Texture>, c: nat, s: Settings): (r: seq<Plane>)
    requires TextureInputsValid(own, refs, s) && c < s.ncSparse
    ensures |r| == |RegressorSources(|refs|, s.spB)|
    ensures forall k :: 0 <= k < |r| ==>
      var t := SourceTexture(own, refs, RegressorSources(|refs|, s.spB)[k]);
      c < |t| && Shaped(t[c], s.rows, s.cols) && r[k] == Pad(t[c], s.rows, s.cols, s.nnt)
  {
    [Pad(own[c], s.rows, s.cols, s.nnt)]
      + (if s.spB then seq(|refs|, k requires 0 <= k < |refs| => Pad(refs[k][c], s.rows, s.cols, s.nnt))
         else [])
  }

  function Clip(x: real, hi: real): real
  {
    if x < 0.0 then 0.0 else if x > hi then hi else x
  }

  /**
   * One stored sample: `x` clipped to [0, 2^bitDepth - 1], then rounded
   * with floor(x + 0.5).
   */
  function ClampRound(x: real, bitDepth: nat): (r: int)
    ensures 0 <= r <= MaxSample(bitDepth)
    ensures r as real - 0.5 <= Clip(x, MaxSample(bitDepth) as real) < r as real + 0.5
  {
    (Clip(x, MaxSample(bitDepth) as real) + 0.5).Floor
  }

  /** A sample already in range and integral is stored unchanged. */
  lemma ClampRoundKeepsInRangeSamples(v: int, bitDepth: nat)
    requires 0 <= v <= MaxSample(bitDepth)
    ensures ClampRound(v as real, bitDepth) == v
  {
  }

  function ClampRoundPlane(acc: seq<seq<real>>, bitDepth: nat): (p: Plane)
    ensures |p| == |acc|
    ensures forall i :: 0 <= i < |p| ==> |p[i]| == |acc[i]|
    ensures forall i, j :: 0 <= i < |p| && 0 <= j < |p[i]| ==>
      p[i][j] == ClampRound(acc[i][j], bitDepth)
  {
    seq(|acc|, i requires 0 <= i < |acc| =>
      seq(|acc[i]|, j requires 0 <= j < |acc[i]| => ClampRound(acc[i][j], bitDepth)))
  }

  function Call(regs: seq<Plane>, seg: Segmentation, region: int, f: SparseFilter, s: Settings): FilterCall
  {
    FilterCall(regs, seg.labels, region, s.rows + 2 * s.nnt, s.cols + 2 * s.nnt, s.ms, s.nnt, s.biasTerm, f)
  }

  /** Accumulator and running filter index `ee` after a run of regions. */
  datatype Walk = Walk(acc: seq<seq<real>>, ee: nat)

  /** Regions `region`..R-1 to go, from `region` on. */
  function RegionsLeft(region: nat, seg: Segmentation): nat
  {
    if region <= NumRegions(seg) then NumRegions(seg) - region + 1 else 0
  }

  /**
   * The inner loop over regions `region`, `region`+1, ..., R, taking the
   * filter at the running index `ee` and advancing it; `.at(ee)` past the
   * bank's end throws. It succeeds iff the bank holds a filter for each
   * region still to visit, and then `ee` has advanced by one per region.
   */
  function WalkRegions(regs: seq<Plane>, seg: Segmentation, filters: seq<SparseFilter>, kernel: Kernel,
                       s: Settings, region: nat, ee: nat, acc: seq<seq<real>>): (r: Result<Walk, SparseError>)
    requires region >= 1
    ensures r.Ok? <==> RegionsLeft(region, seg) == 0 || ee + RegionsLeft(region, seg) <= |filters|
    ensures r.Ok? ==> r.value.ee == ee + RegionsLeft(region, seg)
    ensures r.Err? ==> r.error.index >= |filters|
    ensures r.Ok? && KernelKeepsShape(kernel, s) && Shaped(acc, s.rows + 2 * s.nnt, s.cols + 2 * s.nnt) ==>
      Shaped(r.value.acc, s.rows + 2 * s.nnt, s.cols + 2 * s.nnt)
    decreases RegionsLeft(region, seg)
  {
    if region > NumRegions(seg) then Ok(Walk(acc, ee))
    else if ee >= |filters| then Err(FilterIndexOutOfRange(ee))
    else WalkRegions(regs, seg, filters, kernel, s, region + 1, ee + 1,
                     kernel(Call(regs, seg, region, filters[ee], s), acc))
  }

  /** The outer loop over components `c`..nc_sparse-1, writing each filtered component into `out`. */
  function WalkComponents(own: Texture, refs: seq<Texture>, seg: Segmentation, filters: seq<SparseFilter>,
                          kernel: Kernel, s: Settings, c: nat, ee: nat, out: Texture): (r: Result<Filtered, SparseError>)
    requires TextureInputsValid(own, refs, s)
    requires c <= s.ncSparse && |out| == |own|
    ensures r.Ok? ==> |r.value.texture| == |out|
    ensures r.Ok? ==> forall k :: 0 <= k < |out| && (k < c || s.ncSparse <= k) ==> r.value.texture[k] == out[k]
    ensures r.Ok? ==> r.value.consumed == ee + (s.ncSparse - c) * NumRegions(seg)
    ensures r.Err? ==> r.error.index >= |filters|
    ensures r.Ok? && KernelKeepsShape(kernel, s) ==>
      forall k :: c <= k < s.ncSparse ==> Shaped(r.value.texture[k], s.rows, s.cols)
    decreases s.ncSparse - c
  {
    if c == s.ncSparse then Ok(Filtered(out, ee))
    else
      var regs := Regressors(own, refs, c, s);
      var w :- WalkRegions(regs, seg, filters, kernel, s, 1, ee,
                           Fill(s.rows + 2 * s.nnt, s.cols + 2 * s.nnt, 0.0));
      var stored := ClampRoundPlane(w.acc, s.bitDepth);
      assert KernelKeepsShape(kernel, s) ==> Shaped(stored, s.rows + 2 * s.nnt, s.cols + 2 * s.nnt);
      var out' := out[c := Crop(stored, s.nnt)];
      assert KernelKeepsShape(kernel, s) ==> Shaped(out'[c], s.rows, s.cols);
      RemainingFilters(ee, c, s.ncSparse, NumRegions(seg));
      WalkComponents(own, refs, seg, filters, kernel, s, c + 1, w.ee, out')
  }

  lemma RemainingFilters(ee: nat, c: nat, n: nat, m: nat)
    requires c < n
    ensures ee + m + (n - (c + 1)) * m == ee + (n - c) * m
  {
    assert (n - c) * m == (n - (c + 1)) * m + m;
  }

  /**
   * The filter pass on a view's predicted texture `own`, with the
   * references' reconstructed textures `refs` (in `references` order).
   * Components from nc_sparse on are passed through, one filter is consumed
   * per (component, region) pair, and the only failure is reading past the
   * bank's end.
   */
  function SparsePass(own: Texture, refs: seq<Texture>, seg: Segmentation, filters: seq<SparseFilter>,
                      kernel: Kernel, s: Settings): (r: Result<Filtered, SparseError>)
    requires TextureInputsValid(own, refs, s)
    ensures r.Ok? ==> |r.value.texture| == |own|
    ensures r.Ok? ==> forall k :: s.ncSparse <= k < |own| ==> r.value.texture[k] == own[k]
    ensures r.Ok? ==> r.value.consumed == s.ncSparse * NumRegions(seg)
    ensures r.Err? ==> r.error.index >= |filters|
    ensures r.Ok? && KernelKeepsShape(kernel, s) ==>
      forall c :: 0 <= c < s.ncSparse ==> Shaped(r.value.texture[c], s.rows, s.cols)
  {
    WalkComponents(own, refs, seg, filters, kernel, s, 0, 0, own)
  }

  /** The filter the pass applies to component `c`, region `region` (1-based). */
  function FilterIndex(c: nat, region: nat, seg: Segmentation): nat
    requires region >= 1
  {
    c * NumRegions(seg) + (region - 1)
  }

  /**
   * Reference definition of one component's accumulator after regions
   * 1..upTo, indexing the bank directly by `FilterIndex`.
   */
  function RegionFold(regs: seq<Plane>, seg: Segmentation, filters: seq<SparseFilter>, kernel: Kernel,
                      s: Settings, c: nat, upTo: nat): seq<seq<real>>
    requires upTo <= NumRegions(seg)
    requires (c + 1) * NumRegions(seg) <= |filters|
  {
    if upTo == 0 then Fill(s.rows + 2 * s.nnt, s.cols + 2 * s.nnt, 0.0)
    else
      assert FilterIndex(c, upTo, seg) < (c + 1) * NumRegions(seg);
      kernel(Call(regs, seg, upTo, filters[FilterIndex(c, upTo, seg)], s),
             RegionFold(regs, seg, filters, kernel, s, c, upTo - 1))
  }

  /** Reference definition of one filtered component. */
  function FilteredComponent(own: Texture, refs: seq<Texture>, seg: Segmentation, filters: seq<SparseFilter>,
                             kernel: Kernel, s: Settings, c: nat): Plane
    requires TextureInputsValid(own, refs, s) && c < s.ncSparse
    requires s.ncSparse * NumRegions(seg) <= |filters|
  {
    assert (c + 1) * NumRegions(seg) <= s.ncSparse * NumRegions(seg) by {
      MulMonotone(c + 1, s.ncSparse, NumRegions(seg));
    }
    var regs := Regressors(own, refs, c, s);
    Crop(ClampRoundPlane(RegionFold(regs, seg, filters, kernel, s, c, NumRegions(seg)), s.bitDepth), s.nnt)
  }

  lemma MulMonotone(a: nat, b: nat, m: nat)
    requires a <= b
    ensures a * m <= b * m
  {
  }

  /**
   * The running index walks components x regions: starting component `c`
   * at `c * R`, region `region` takes filter `FilterIndex(c, region)`.
   */
  lemma {:induction false} WalkRegionsMatchesFold(regs: seq<Plane>, seg: Segmentation, filters: seq<SparseFilter>,
                                                  kernel: Kernel, s: Settings, c: nat, region: nat)
    requires 1 <= region <= NumRegions(seg) + 1
    requires (c + 1) * NumRegions(seg) <= |filters|
    ensures WalkRegions(regs, seg, filters, kernel, s, region, FilterIndex(c, region, seg),
                        RegionFold(regs, seg, filters, kernel, s, c, region - 1))
         == Ok(Walk(RegionFold(regs, seg, filters, kernel, s, c, NumRegions(seg)), (c + 1) * NumRegions(seg)))
    decreases NumRegions(seg) + 1 - region
  {
    if region <= NumRegions(seg) {
      var ee := FilterIndex(c, region, seg);
      var acc := RegionFold(regs, seg, filters, kernel, s, c, region - 1);
      assert ee < (c + 1) * NumRegions(seg);
      assert RegionFold(regs, seg, filters, kernel, s, c, region)
          == kernel(Call(regs, seg, region, filters[ee], s), acc);
      assert WalkRegions(regs, seg, filters, kernel, s, region, ee, acc)
          == WalkRegions(regs, seg, filters, kernel, s, region + 1, ee + 1,
                         RegionFold(regs, seg, filters, kernel, s, c, region));
      assert FilterIndex(c, region + 1, seg) == ee + 1;
      WalkRegionsMatchesFold(regs, seg, filters, kernel, s, c, region + 1);
    }
  }

  /** The reference definition of the whole pass. */
  function ClosedFormPass(own: Texture, refs: seq<Texture>, seg: Segmentation, filters: seq<SparseFilter>,
                          kernel: Kernel, s: Settings): (t: Texture)
    requires TextureInputsValid(own, refs, s)
    requires s.ncSparse * NumRegions(seg) <= |filters|
  {
    seq(|own|, k requires 0 <= k < |own| =>
      if k < s.ncSparse then FilteredComponent(own, refs, seg, filters, kernel, s, k) else own[k])
  }

  lemma {:induction false} WalkComponentsMatchesClosedForm(
    own: Texture, refs: seq<Texture>, seg: Segmentation, filters: seq<SparseFilter>,
    kernel: Kernel, s: Settings, c: nat, out: Texture)
    requires TextureInputsValid(own, refs, s)
    requires s.ncSparse * NumRegions(seg) <= |filters|
    requires c <= s.ncSparse && |out| == |own|
    requires forall k :: 0 <= k < c ==> out[k] == FilteredComponent(own, refs, seg, filters, kernel, s, k)
    requires forall k :: c <= k < |own| ==> out[k] == own[k]
    ensures WalkComponents(own, refs, seg, filters, kernel, s, c, c * NumRegions(seg), out)
         == Ok(Filtered(ClosedFormPass(own, refs, seg, filters, kernel, s), s.ncSparse * NumRegions(seg)))
    decreases s.ncSparse - c
  {
    var R := NumRegions(seg);
    if c == s.ncSparse {
      assert out == ClosedFormPass(own, refs, seg, filters, kernel, s);
    } else {
      MulMonotone(c + 1, s.ncSparse, R);
      var regs := Regressors(own, refs, c, s);
      WalkRegionsMatchesFold(regs, seg, filters, kernel, s, c, 1);
      assert FilterIndex(c, 1, seg) == c * R;
      var out' := out[c := FilteredComponent(own, refs, seg, filters, kernel, s, c)];
      WalkComponentsMatchesClosedForm(own, refs, seg, filters, kernel, s, c + 1, out');
      assert (c + 1) * R == c * R + R;
    }
  }

  /**
   * With filters for every (component, region) pair the pass equals the
   * reference definition and consumes exactly nc_sparse * R filters.
   */
  lemma PassMatchesClosedForm(own: Texture, refs: seq<Texture>, seg: Segmentation, filters: seq<SparseFilter>,
                              kernel: Kernel, s: Settings)
    requires TextureInputsValid(own, refs, s)
    requires s.ncSparse * NumRegions(seg) <= |filters|
    ensures SparsePass(own, refs, seg, filters, kernel, s)
         == Ok(Filtered(ClosedFormPass(own, refs, seg, filters, kernel, s), s.ncSparse * NumRegions(seg)))
  {
    WalkComponentsMatchesClosedForm(own, refs, seg, filters, kernel, s, 0, own);
  }

  lemma {:induction false} WalkComponentsFailsIffShort(
    own: Texture, refs: seq<Texture>, seg: Segmentation, filters: seq<SparseFilter>,
    kernel: Kernel, s: Settings, c: nat, out: Texture)
    requires TextureInputsValid(own, refs, s)
    requires c <= s.ncSparse && |out| == |own|
    requires c * NumRegions(seg) <= |filters|
    ensures WalkComponents(own, refs, seg, filters, kernel, s, c, c * NumRegions(seg), out).Ok?
        <==> s.ncSparse * NumRegions(seg) <= |filters|
    decreases s.ncSparse - c
  {
    var R := NumRegions(seg);
    if c < s.ncSparse {
      var regs := Regressors(own, refs, c, s);
      var acc0 := Fill(s.rows + 2 * s.nnt, s.cols + 2 * s.nnt, 0.0);
      var ee := c * R;
      var next := (c + 1) * R;
      var total := s.ncSparse * R;
      MulStep(c, s.ncSparse, R);
      assert next == ee + R && next <= total;
      assert RegionsLeft(1, seg) == R;
      var w := WalkRegions(regs, seg, filters, kernel, s, 1, ee, acc0);
      if w.Ok? {
        assert w.value.ee == next;
        var out' := out[c := Crop(ClampRoundPlane(w.value.acc, s.bitDepth), s.nnt)];
        WalkComponentsFailsIffShort(own, refs, seg, filters, kernel, s, c + 1, out');
        assert WalkComponents(own, refs, seg, filters, kernel, s, c, ee, out)
            == WalkComponents(own, refs, seg, filters, kernel, s, c + 1, next, out');
      } else {
        assert R > 0 && ee + R > |filters|;
      }
    }
  }

  lemma MulStep(c: nat, n: nat, m: nat)
    requires c < n
    ensures (c + 1) * m == c * m + m
    ensures (c + 1) * m <= n * m
  {
  }

  /** The pass fails exactly when the bank has fewer than nc_sparse * R filters. */
  lemma PassFailsIffTooFewFilters(own: Texture, refs: seq<Texture>, seg: Segmentation, filters: seq<SparseFilter>,
                                  kernel: Kernel, s: Settings)
    requires TextureInputsValid(own, refs, s)
    ensures SparsePass(own, refs, seg, filters, kernel, s).Ok? <==> s.ncSparse * NumRegions(seg) <= |filters|
  {
    WalkComponentsFailsIffShort(own, refs, seg, filters, kernel, s, 0, own);
  }

  /** The pass succeeds iff the bank is long enough, and then equals the reference definition. */
  lemma PassCharacterized(own: Texture, refs: seq<Texture>, seg: Segmentation, filters: seq<SparseFilter>,
                          kernel: Kernel, s: Settings)
    requires TextureInputsValid(own, refs, s)
    ensures SparsePass(own, refs, seg, filters, kernel, s).Ok? <==> s.ncSparse * NumRegions(seg) <= |filters|
    ensures s.ncSparse * NumRegions(seg) <= |filters| ==>
      SparsePass(own, refs, seg, filters, kernel, s)
        == Ok(Filtered(ClosedFormPass(own, refs, seg, filters, kernel, s), s.ncSparse * NumRegions(seg)))
  {
    PassFailsIffTooFewFilters(own, refs, seg, filters, kernel, s);
    if s.ncSparse * NumRegions(seg) <= |filters| {
      PassMatchesClosedForm(own, refs, seg, filters, kernel, s);
    }
  }

  /**
   * Components at or above nc_sparse come out as they went in; the ones
   * below hold only samples in [0, 2^bitDepth - 1].
   */
  lemma PassOutput(own: Texture, refs: seq<Texture>, seg: Segmentation, filters: seq<SparseFilter>,
                   kernel: Kernel, s: Settings, c: nat, i: nat, j: nat)
    requires TextureInputsValid(own, refs, s)
    requires SparsePass(own, refs, seg, filters, kernel, s).Ok?
    ensures |SparsePass(own, refs, seg, filters, kernel, s).value.texture| == |own|
    ensures s.ncSparse <= c < |own| ==> SparsePass(own, refs, seg, filters, kernel, s).value.texture[c] == own[c]
    ensures KernelKeepsShape(kernel, s) && c < s.ncSparse ==>
      Shaped(SparsePass(own, refs, seg, filters, kernel, s).value.texture[c], s.rows, s.cols)
    ensures c < s.ncSparse && i < |SparsePass(own, refs, seg, filters, kernel, s).value.texture[c]|
            && j < |SparsePass(own, refs, seg, filters, kernel, s).value.texture[c][i]| ==>
      0 <= SparsePass(own, refs, seg, filters, kernel, s).value.texture[c][i][j] <= MaxSample(s.bitDepth)
  {
    PassFailsIffTooFewFilters(own, refs, seg, filters, kernel, s);
    PassMatchesClosedForm(own, refs, seg, filters, kernel, s);
  }
}
