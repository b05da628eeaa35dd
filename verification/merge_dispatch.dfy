/**
 * `decoder::merge_texture_views` as a dispatcher: which merge routine runs
 * for the view's merge mode, and over which components hole filling runs.
 * The routines themselves are not modelled; the model is the sequence of
 * calls the dispatcher makes.
 */
module MergeDispatch {

  /** One call made by the dispatcher. */
  datatype MergeStep =
    | InitWeights                     // initViewW: per-view merge weights and masks
    | GeometricWeights(component: nat) // getGeomWeight_icomp: weights from view-array distance
    | WeightedMerge(component: nat)    // mergeWarped_N_icomp: weighted merge of one component
    | MedianMerge(components: nat)     // mergeMedian_N over that many components
    | HoleFill(component: nat)         // holefilling of one component
    | ReleaseMasks                    // seg_vp and bmask freed

  function GeometricWeightSteps(n: nat): (r: seq<MergeStep>)
    ensures |r| == n && forall c :: 0 <= c < n ==> r[c] == GeometricWeights(c)
  {
    seq(n, c requires 0 <= c < n => GeometricWeights(c))
  }

  function WeightedMergeSteps(n: nat): (r: seq<MergeStep>)
    ensures |r| == n && forall c :: 0 <= c < n ==> r[c] == WeightedMerge(c)
  {
    seq(n, c requires 0 <= c < n => WeightedMerge(c))
  }

  function HoleFillSteps(n: nat): (r: seq<MergeStep>)
    ensures |r| == n && forall c :: 0 <= c < n ==> r[c] == HoleFill(c)
  {
    seq(n, c requires 0 <= c < n => HoleFill(c))
  }

  /**
   * The calls for merge mode `mode` on a view of `ncomp` components:
   * mode 0 merges and hole-fills `ncomp` components; mode 1 first derives
   * geometric weights, merges `ncomp` components and hole-fills three;
   * mode 2 takes the median over three components and hole-fills three;
   * any other mode merges nothing. Every mode starts with the weight
   * set-up and ends by releasing the masks.
   */
  function MergePlan(mode: int, ncomp: nat): (r: seq<MergeStep>)
    ensures |r| >= 2 && r[0] == InitWeights && r[|r| - 1] == ReleaseMasks
    ensures mode !in {0, 1, 2} ==> r == [InitWeights, ReleaseMasks]
    ensures mode == 2 ==> MedianMerge(3) in r
  {
    var body :=
      if mode == 0 then WeightedMergeSteps(ncomp) + HoleFillSteps(ncomp)
      else if mode == 1 then GeometricWeightSteps(ncomp) + WeightedMergeSteps(ncomp) + HoleFillSteps(3)
      else if mode == 2 then [MedianMerge(3)] + HoleFillSteps(3)
      else [];
    [InitWeights] + body + [ReleaseMasks]
  }

  /** Stage of a call: weights, then merging, then hole filling. */
  function Phase(step: MergeStep): nat
  {
    match step
    case InitWeights => 0
    case GeometricWeights(_) => 1
    case WeightedMerge(_) => 2
    case MedianMerge(_) => 2
    case HoleFill(_) => 3
    case ReleaseMasks => 4
  }

  predicate IsMerge(step: MergeStep)
  {
    step.WeightedMerge? || step.MedianMerge?
  }

  /** Calls come in stage order: all weights before any merge, all merging before any hole filling. */
  lemma PlanInPhaseOrder(mode: int, ncomp: nat, j: nat, k: nat)
    requires j < k < |MergePlan(mode, ncomp)|
    ensures Phase(MergePlan(mode, ncomp)[j]) <= Phase(MergePlan(mode, ncomp)[k])
  {
  }

  /**
   * Hole filling covers the view's components in mode 0, always three
   * components in modes 1 and 2, and nothing in any other mode.
   */
  lemma HoleFillCoverage(mode: int, ncomp: nat, c: nat)
    ensures mode == 0 ==> (HoleFill(c) in MergePlan(mode, ncomp) <==> c < ncomp)
    ensures mode == 1 || mode == 2 ==> (HoleFill(c) in MergePlan(mode, ncomp) <==> c < 3)
    ensures mode !in {0, 1, 2} ==> HoleFill(c) !in MergePlan(mode, ncomp)
  {
  }

  /**
   * Which merge routine runs: weighted merging of each of `ncomp`
   * components in modes 0 and 1 (preceded by geometric weights only in
   * mode 1), a single three-component median merge in mode 2.
   */
  lemma MergeRoutine(mode: int, ncomp: nat, k: nat)
    requires k < |MergePlan(mode, ncomp)|
    ensures MergePlan(mode, ncomp)[k].GeometricWeights? ==> mode == 1 && MergePlan(mode, ncomp)[k].component < ncomp
    ensures MergePlan(mode, ncomp)[k].WeightedMerge? ==>
      (mode == 0 || mode == 1) && MergePlan(mode, ncomp)[k].component < ncomp
    ensures MergePlan(mode, ncomp)[k].MedianMerge? ==> mode == 2 && MergePlan(mode, ncomp)[k].components == 3
    ensures IsMerge(MergePlan(mode, ncomp)[k]) ==> mode in {0, 1, 2}
  {
  }

  /** In modes 0 and 1 every component below `ncomp` is merged. */
  lemma EveryComponentMerged(mode: int, ncomp: nat, c: nat)
    requires mode == 0 || mode == 1
    requires c < ncomp
    ensures WeightedMerge(c) in MergePlan(mode, ncomp)
    ensures mode == 1 ==> GeometricWeights(c) in MergePlan(mode, ncomp)
  {
  }

  /** Number of calls the dispatcher makes. */
  function PlanLength(mode: int, ncomp: nat): nat
  {
    2 + (if mode == 0 then 2 * ncomp else if mode == 1 then 2 * ncomp + 3 else if mode == 2 then 4 else 0)
  }

  /**
   * Reference definition of the `k`-th call, read off the loops directly:
   * position 0 is the set-up, the last position the release, and in
   * between each loop occupies a block of consecutive positions, one per
   * component in ascending order.
   */
  function StepAt(mode: int, ncomp: nat, k: nat): MergeStep
    requires k < PlanLength(mode, ncomp)
  {
    if k == 0 then InitWeights
    else if k == PlanLength(mode, ncomp) - 1 then ReleaseMasks
    else if mode == 0 then
      (if k <= ncomp then WeightedMerge(k - 1) else HoleFill(k - 1 - ncomp))
    else if mode == 1 then
      (if k <= ncomp then GeometricWeights(k - 1)
       else if k <= 2 * ncomp then WeightedMerge(k - 1 - ncomp)
       else HoleFill(k - 1 - 2 * ncomp))
    else
      (if k == 1 then MedianMerge(3) else HoleFill(k - 2))
  }

  /** The dispatcher's calls are exactly the reference definition's, position by position. */
  lemma PlanMatchesStepAt(mode: int, ncomp: nat, k: nat)
    ensures |MergePlan(mode, ncomp)| == PlanLength(mode, ncomp)
    ensures k < PlanLength(mode, ncomp) ==> MergePlan(mode, ncomp)[k] == StepAt(mode, ncomp, k)
  {
  }

  /** Component a call works on, 0 for the calls that take none. */
  function ComponentOf(step: MergeStep): nat
  {
    match step
    case GeometricWeights(c) => c
    case WeightedMerge(c) => c
    case HoleFill(c) => c
    case _ => 0
  }

  /** `a` comes strictly before `b`: an earlier stage, or the same stage and a lower component. */
  predicate Before(a: MergeStep, b: MergeStep)
  {
    Phase(a) < Phase(b) || (Phase(a) == Phase(b) && ComponentOf(a) < ComponentOf(b))
  }

  /**
   * Every call is strictly later than the one before it: the stages come
   * in order, each loop walks its components upwards, and no call is made
   * twice.
   */
  lemma PlanStrictlyOrdered(mode: int, ncomp: nat, j: nat, k: nat)
    requires j < k < |MergePlan(mode, ncomp)|
    ensures Before(MergePlan(mode, ncomp)[j], MergePlan(mode, ncomp)[k])
    ensures MergePlan(mode, ncomp)[j] != MergePlan(mode, ncomp)[k]
  {
    PlanMatchesStepAt(mode, ncomp, j);
    PlanMatchesStepAt(mode, ncomp, k);
  }
}
