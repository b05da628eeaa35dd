# Verified model of the WaSP light-field decoder's bookkeeping core

WaSP reconstructs a light field (a 2-D array of camera views) from a
bitstream. Each view is either coded on its own (hierarchy level 0) or
predicted from already reconstructed reference views by depth-based
warping, merging, hole filling and an optional segmentation-guided
"global sparse" filter, and then corrected with a coded residual.

`source/decoder.cpp` is mostly orchestration of image kernels and
external codecs. This project models the integer decision and
bookkeeping logic inside it as pure Dafny functions, and proves what that
logic guarantees:

- `Header` (header.dfy, with `Bytes` in bytes.dfy): `decode_header` as a parse of
  a 25-byte little-endian record. It covers the colorspace enumerator
  mapping, the fatal "deflate without gzip path" check, and the running
  byte counter. As written, the counter counts the 4-byte `maxh` field as
  1 byte. `Parse` counts every field at its own width (see "## Findings").
- `ResidualGate` (residual_gate.dfy): the residual-read loop of
  `decode_views`. Views are visited in index order. A texture segment is
  pulled only while fewer levels have been read than the view's level. A
  depth segment is pulled for every view that has one.
- `LevelBatches` (level_batches.dfy): the per-level batches for levels
  1..maxh. Each batch holds the ascending view indices of its level and
  whether any of those views has a texture residual.
- `CuPadding` (cu_padding.dfy): VERP/HORP padding to the minimum
  coding-unit size 8, with C++ truncating division written out.
- `ResidualParams` (residual_params.dfy): the step `Q`, the DC offset and
  the bit depth used to dequantise a view's texture residual and to apply it.
- `Planes` (planes.dfy): sample planes, textures, zero padding and
  cropping.
- `SparseFilter` (sparse_filter.dfy): the global sparse filter pass of
  `predict_texture_view`. It covers the regressor order, the running
  filter index `ee` over components × regions, the `.at` failure, the
  clip-then-round-half-up of each sample, and the rule that only
  components below `nc_sparse` are replaced.
- `MergeDispatch` (merge_dispatch.dfy): `merge_texture_views` as the
  sequence of kernel calls each merge mode makes.
- `TexturePrediction` (texture_prediction.dfy): `predict_texture_view` as
  a whole. A view without references keeps its zero-initialised buffer.
- `Wrappers` (wrappers.dfy): `Result`/`Option` for the fatal paths.

The image kernels whose bodies are not part of this model are inputs. The
warp-and-merge output is the `merged` texture. The filter kernel
`applyGlobalSparseFilter_vec_reg` is a function parameter `kernel`. The
segmentation is the `seg` value.

## Model

| member | source | states |
|---|---|---|
| `Header.Parse` | source/decoder.cpp:145-240 | fails with `Truncated` iff the input is shorter than 25 bytes; fails with `DeflateWithoutGzip` iff the deflate byte (offset 24) is nonzero and the gzip path is empty; on success the fields re-encode to exactly the first 25 bytes, the rest of the stream is what follows them, the colorspace name follows the enumerator, and the counter grows by exactly the bytes consumed (the corrected count, see Findings) |
| `Header.ParseEncode` | source/decoder.cpp:145-232 | round trip: an encoded header (int32 ×3, uint16, uint8, int32, uint8 ×6, little-endian) followed by any bytes parses back to the same fields and exactly the following bytes |
| `Header.EncodeDecode` | source/decoder.cpp:145-230 | the other round-trip direction: any 25 bytes decode to fields that re-encode to the same bytes |
| `Header.DeflateNeedsGzip` | source/decoder.cpp:224-238 | a header with the deflate flag set and no gzip path is rejected whatever its other fields |
| `Header.CounterMiscountsMaxh` | source/decoder.cpp:188-192 | as written, the counter grows by 22 over the 25-byte header: every read is counted at its field width except `maxh`'s |
| `Header.CounterAsWritten` | source/decoder.cpp:147-230 | the counter as the code keeps it on a complete header, where every `fread` returns one item: the sum of the `sizeof` multipliers written beside the reads; its value is stated by `CounterMiscountsMaxh` and `ParseCounterAheadOfAsWritten` |
| `Header.ParseCounterAheadOfAsWritten` | source/decoder.cpp:188-192 | on every header that parses, the corrected counter of `Parse` is exactly 3 ahead of the counter the code keeps: the 3 uncounted bytes of `maxh` |
| `Header.ColorspaceName` | source/decoder.cpp:181-186 | the name held after the read names the enumerator read when it is 0 or 1, and otherwise is exactly the name held before |
| `ResidualGate.CollectReads` | source/decoder.cpp:628-667 | the imperative loop over views computes the same level count and read sequence as the fold `Gate` |
| `ResidualGate.Step` | source/decoder.cpp:646-667 | one view's iteration only appends reads, each naming that view, at most two of them, and records at most one level |
| `ResidualGate.Gate` | source/decoder.cpp:628-667 | after all views at most one level per view is recorded and at most two segments per view are pulled; per-view behaviour is stated by `TextureReadIff` and `DepthReadIff` |
| `ResidualGate.TextureReadIff` | source/decoder.cpp:646-655 | view i pulls a texture segment iff it has a colour residual and the levels read before it number fewer than its level (as size_t) |
| `ResidualGate.DepthReadIff` | source/decoder.cpp:658-667 | view i pulls a depth segment iff it has a depth residual |
| `ResidualGate.ReadsInViewOrder` | source/decoder.cpp:630-667 | reads come out ordered by view index, with a view's texture read before its depth read, and no read occurs twice |
| `ResidualGate.TextureBeforeDepth` | source/decoder.cpp:646-667 | a view has at most one depth read, and its texture read, if any, precedes it |
| `ResidualGate.WrittenCountsTextureReads` | source/decoder.cpp:646-655 | the size of the level vector equals the number of texture reads: each read appends exactly one entry |
| `ResidualGate.LevelZeroNeverReadsTexture` | source/decoder.cpp:646-647 | a level-0 view never pulls a texture segment |
| `ResidualGate.WrittenBoundedByMaxLevel` | source/decoder.cpp:646-655 | with non-negative levels the level vector never grows past the highest level among colour-residual views |
| `ResidualGate.OneSegmentPerLevel` | source/decoder.cpp:646-655 | if colour-residual levels appear without gaps, the final count equals the highest such level, so one segment is read per level |
| `ResidualGate.NegativeLevelAlwaysReads` | source/decoder.cpp:647 | a colour-residual view with a negative level always pulls a texture segment, because the level converts to a huge size_t |
| `LevelBatches.HighestLevel` | source/decoder.cpp:676 | the replacement `maxh` is non-negative, at least every view's level, and either 0 or some view's level |
| `LevelBatches.ViewsAtLevel` | source/decoder.cpp:683-689 | `view_indices` is strictly ascending and names only views of that level |
| `LevelBatches.ViewsAtLevelComplete` | source/decoder.cpp:683-689 | every view of the level is in `view_indices` |
| `LevelBatches.TextureResidualForLevel` | source/decoder.cpp:691-697 | the early-exit scan returns true iff some listed view has a colour residual |
| `LevelBatches.Batches` | source/decoder.cpp:676-697 | there is one batch per level 1..maxh, maxh being the replaced highest level; the contents of each are stated by `BatchContents` |
| `LevelBatches.BatchContents` | source/decoder.cpp:676-697 | batch k is level k+1, holds exactly that level's views in ascending order, and has a texture residual iff one of them does |
| `LevelBatches.BatchesPartitionPredictedViews` | source/decoder.cpp:678-689 | a view with level at least 1 is in exactly the batch of its level; a view of level 0 or below is in none |
| `CuPadding.Padding` | source/decoder.cpp:707-712 | size plus padding is a multiple of 8 for every size; for sizes ≥ 0 the padding lies in [0, 8) and is 0 iff the size is already a multiple of 8 |
| `CuPadding.PaddedSize` | source/decoder.cpp:714-715 | `nr1`/`nc1` is a multiple of 8 and, for sizes ≥ 0, lies in [size, size + 8) |
| `CuPadding.PaddedSizeIsLeastMultiple` | source/decoder.cpp:707-715 | `nr1`/`nc1` is the least multiple of 8 not below `nr`/`nc` |
| `ResidualParams.DequantizationFor` | source/decoder.cpp:841-870 | the dequantiser runs at bit depth 10; Q is 1 exactly for levels ≤ 1, with offset 0; otherwise Q is 2 and the offset is 2^10 − 1 = 1023 |
| `ResidualParams.ResidualCorrection` | source/decoder.cpp:839-880 | a texture is corrected iff the view has a colour residual, with the level's parameters; dequantisation and application both run at bit depth 10, and a shifted residual is shifted by the top of that 10-bit range |
| `Planes.CropPad` | source/decoder.cpp:536-540 | cropping by `NNt` undoes padding by `NNt` |
| `SparseFilter.RegressorSources` | source/decoder.cpp:476-498 | the regressor list is the view's own component first, then each reference in `references` order iff `SP_B`, of length 1 + (SP_B ? n_references : 0) |
| `SparseFilter.Regressors` | source/decoder.cpp:476-498 | regressor k is the padded same-numbered component of the texture that list entry k names |
| `SparseFilter.ClampRound` | source/decoder.cpp:524-532 | each stored sample lies in [0, 2^BIT_DEPTH − 1] and is the clipped value rounded half up (r − ½ ≤ clip(x) < r + ½) |
| `SparseFilter.ClampRoundKeepsInRangeSamples` | source/decoder.cpp:524-532 | an integral in-range value is stored unchanged |
| `SparseFilter.ClampRoundPlane` | source/decoder.cpp:524-534 | the stored plane has the accumulator's shape, and every sample is the clamp-and-round of the accumulated value at the same position |
| `SparseFilter.WalkRegions` | source/decoder.cpp:502-522 | the region loop fails iff the bank runs out before the last region, only by reading past the bank's end, and otherwise advances `ee` by the number of regions |
| `SparseFilter.WalkComponents` | source/decoder.cpp:472-545 | the component loop leaves components already written and components from nc_sparse on untouched, consumes R filters per component still to go, and fails only by reading past the bank's end |
| `SparseFilter.SparsePass` | source/decoder.cpp:465-565 | the pass keeps the component count, passes components from nc_sparse on through, consumes nc_sparse·R filters, and fails only by reading past the bank's end; when the kernel keeps the accumulator's (nr + 2·NNt) × (nc + 2·NNt) shape, every filtered component is nr × nc; `PassCharacterized` relates it to the reference definition |
| `SparseFilter.WalkRegionsMatchesFold` | source/decoder.cpp:502-522 | starting a component at `ee = c·R`, the running index picks `sparse_filters[c·R + (r − 1)]` for region r |
| `SparseFilter.WalkComponentsMatchesClosedForm` | source/decoder.cpp:474-549 | from component c on, the running walk yields the reference definition and ends with `ee = nc_sparse·R` |
| `SparseFilter.PassMatchesClosedForm` | source/decoder.cpp:465-565 | with enough filters the pass equals the reference definition, which filters components below nc_sparse by the directly indexed bank and copies the others, and consumes nc_sparse·R filters |
| `SparseFilter.PassFailsIffTooFewFilters` | source/decoder.cpp:507-519 | the pass fails (`.at` throws) iff the bank holds fewer than nc_sparse·R filters |
| `SparseFilter.PassCharacterized` | source/decoder.cpp:465-565 | the pass succeeds iff the bank is long enough, and then equals the reference definition |
| `SparseFilter.PassOutput` | source/decoder.cpp:524-565 | components ≥ nc_sparse come out as they went in; the components below hold only samples in [0, 2^BIT_DEPTH − 1] and, when the kernel keeps the accumulator's shape, are nr × nc |
| `MergeDispatch.MergePlan` | source/decoder.cpp:326-402 | every mode starts with the weight set-up (`initViewW`) and ends by freeing the masks; mode 2 runs the three-component median merge; a mode other than 0/1/2 does nothing else |
| `MergeDispatch.PlanInPhaseOrder` | source/decoder.cpp:334-396 | calls run in stage order: weights, then merging, then hole filling |
| `MergeDispatch.HoleFillCoverage` | source/decoder.cpp:343-395 | hole filling runs over components 0..ncomp−1 in mode 0, over exactly three components in modes 1 and 2, and over none otherwise |
| `MergeDispatch.MergeRoutine` | source/decoder.cpp:334-396 | geometric weights occur only in mode 1 and below ncomp; weighted merging only in modes 0/1 and below ncomp; median merging only in mode 2 and over 3 components |
| `MergeDispatch.EveryComponentMerged` | source/decoder.cpp:334-369 | in modes 0 and 1 every component below ncomp is merged, and in mode 1 each gets geometric weights |
| `MergeDispatch.PlanMatchesStepAt` | source/decoder.cpp:331-401 | the call sequence equals, position by position, a reference definition read off the loops: set-up, then one block of consecutive positions per loop with one call per component in ascending order, then the release; the length is 2 + 2·ncomp (mode 0), 2 + 2·ncomp + 3 (mode 1), 6 (mode 2) or 2 |
| `MergeDispatch.PlanStrictlyOrdered` | source/decoder.cpp:331-401 | each call is strictly after the previous one, by stage and then by component, so no call is made twice and every loop walks its components upwards |
| `TexturePrediction.PredictTexture` | source/decoder.cpp:404-570 | with sparse filtering, demands nc_sparse ≤ ncomp ≤ the buffer's components and the pass at the view's size (the filtered copy holds ncomp components); no references: the zero buffer, with no merge calls and no filters; references without sparse filtering: the merge output and the mode's merge calls; with sparse filtering: success iff the bank is long enough, and then the filtered texture and nc_sparse·R filters consumed |
| `TexturePrediction.NoReferencesNoDependence` | source/decoder.cpp:404-406 | a view without references predicts the same all-zero texture, whatever the merge output, segmentation, filters or kernel |
| `TexturePrediction.FilterLeavesOtherComponents` | source/decoder.cpp:562-565 | after prediction with sparse filtering, components ≥ nc_sparse equal the merge output, filtered samples lie in range, and, when the kernel keeps the accumulator's shape, filtered components have the view's size |

## Left out

- File and stream I/O are not modelled: fopen/fread/feof plumbing, PGM/PPM reading and writing, `write_output_ppm`. The header is a pure parse over a byte sequence instead.
- The end-of-file termination after each view's reads (decoder.cpp:669-672) is left out. It depends on how many bytes `codestreamToViewHeader` and `readResidualFromDisk` consume, and those readers are not part of this model.
- Header.Parse: a header shorter than 25 bytes is reported as `Truncated` at parse time. The source does not check its header reads; a short stream shows up, if at all, only as EOF at the per-view check inside the view loop (decoder.cpp:669-672), which does not run when `number_of_views` is 0 or less.
- External processes are not modelled: `decodeHM`, `decodeKakadu`, gzip expansion via `viewParametersConstruct` (the deflated per-view metadata path, decoder.cpp:596-626). They are opaque binaries.
- Nothing after a level batch is chosen is modelled (decoder.cpp:699-764): `getScanOrder` (the serpentine scan), `convertYUVseqTo444`, the YUV format choice and `cropImage_for_HM`. Only the padding arithmetic is.
- Kernel bodies are not part of this model. Warping, `mergeWarped_N_icomp`, `getGeomWeight_icomp`, `mergeMedian_N` and `holefilling` appear only as merge-plan calls and as the `merged` input. `applyGlobalSparseFilter_vec_reg` together with `dequantize_and_reorder_spfilter` is the `kernel` parameter. `makeSegmentation` is the `seg` input. `WaSP_predict_depth`, `medfilt2D`, `dequantize_residual` and `apply_residual` are not modelled.
- Depth reconstruction (decoder.cpp:777-823) and view initialisation (decoder.cpp:575-594) are not modelled: they only route data between the unmodelled kernels.
- Planes.Pad: `padArrayUint16_t_vec` and `cropImage` are assumed to zero-pad and to extract the interior by `NNt`. Planes are row sequences, so no memory layout is assumed.
- SparseFilter.ClampRound: the double-precision filter output is modelled as a real. `clip` is assumed to be a clamp to [lo, hi]. `BIT_DEPTH` is a parameter, and `TextureInputsValid` requires it to be at most 16 so that the uint16 cast keeps the value.
- ResidualGate.AsSize: `size_t` is taken to be 64 bits wide, so a negative level converts to level + 2^64. On a platform with a 32-bit `size_t` the conversion would be level + 2^32.
- TexturePrediction.PredictTexture: inputs with nc_sparse greater than the view's `ncomp` are excluded. The source would then write past the end of `sp_filtered_image`, which holds `ncomp` components (decoder.cpp:468-470, 542-545), so it has no defined result for them.
- SparseFilter.SparsePass: the nr × nc shape of each filtered component is promised only for kernels that keep the accumulator's shape (`KernelKeepsShape`). The source's accumulator is a fixed-size vector the kernel writes into. The kernel body is not part of this model, so that property is a hypothesis here.
- LevelBatches.HighestLevel: the body of `get_highest_level` is not part of this model. It is assumed to be a running maximum starting from 0.
- CuPadding.Padding: int32 overflow of `mincusize * (n / 8 + 1)` for sizes within 8 of 2^31 is not modelled (integers are unbounded).
- The view loop compares an unsigned index with the signed `number_of_views`. This is not modelled: views are a sequence.
- Statistics output (`write_statsfile`), the `SAVE_PARTIAL_WARPED_VIEWS` dumps, the reference-buffer release after warping (decoder.cpp:277-281), the release of every reference's colour buffer after filtering (decoder.cpp:553-560), and `dealloc` are not modelled: they are not decoding logic.
- The hole count returned by `holefilling` is not modelled: it is informational and never used.

## Findings

| source | as written | input that shows it | evidently intended | confidence | as-written member | corrected member |
|---|---|---|---|---|---|---|
| source/decoder.cpp:188-192 | the int32 `maxh` read adds `sizeof(uint8_t)` = 1 to `n_bytes_prediction`, so the counter grows by 22 over a 25-byte header | any complete header, e.g. 25 zero bytes | multiplied by `sizeof(int32_t)` like the other int32 fields, so the counter grows by 25, the bytes actually read | medium, not executed: after the header the counter is passed only to `codestreamToViewHeader` (decoder.cpp:636), whose body is not part of this model, so the effect of the miscount is not known | `Header.CounterMiscountsMaxh` | `Header.Parse` |

`Header.CounterAsWritten` is the counter as the code computes it.
`Header.Parse` uses the intended advance: every field counted at its own
width, so the counter tracks the bytes consumed.
