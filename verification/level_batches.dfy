/**
 * The per-level texture batches of `decoder::decode_views`: for each
 * hierarchy level 1..maxh, the ascending indices of the views at that
 * level, and whether any of them carries a texture residual (and so
 * whether the level's base-codec access unit is decoded at all).
 */
module LevelBatches {
  import opened ResidualGate

  /**
   * get_highest_level: the largest level present, taken as a running
   * maximum that starts from 0.
   */
  function HighestLevel(views: seq<ViewMeta>): (h: int)
    ensures h >= 0
    ensures forall i :: 0 <= i < |views| ==> views[i].level as int <= h
    ensures h == 0 || exists i :: 0 <= i < |views| && views[i].level as int == h
  {
    if |views| == 0 then 0
    else
      var h := HighestLevel(views[..|views| - 1]);
      var l := views[|views| - 1].level as int;
      if l > h then l else h
  }

  predicate StrictlyIncreasing(s: seq<nat>)
  {
    forall j, k :: 0 <= j < k < |s| ==> s[j] < s[k]
  }

  /** `view_indices`: the indices of the views whose level is `h`, in index order. */
  function ViewsAtLevel(views: seq<ViewMeta>, h: int): (r: seq<nat>)
    ensures StrictlyIncreasing(r)
    ensures forall k :: 0 <= k < |r| ==> r[k] < |views| && views[r[k]].level as int == h
  {
    if |views| == 0 then []
    else
      var n := |views| - 1;
      ViewsAtLevel(views[..n], h) + (if views[n].level as int == h then [n] else [])
  }

  /** `view_indices` holds every view of the level and nothing else. */
  lemma {:induction false} ViewsAtLevelComplete(views: seq<ViewMeta>, h: int, i: nat)
    ensures i in ViewsAtLevel(views, h) <==> i < |views| && views[i].level as int == h
  {
    if |views| > 0 {
      var n := |views| - 1;
      ViewsAtLevelComplete(views[..n], h, i);
    }
  }

  /**
   * `texture_residual_for_level`: the scan over the level's views, stopping
   * at the first one with a colour residual.
   */
  method TextureResidualForLevel(views: seq<ViewMeta>, indices: seq<nat>) returns (found: bool)
    requires forall k :: 0 <= k < |indices| ==> indices[k] < |views|
    ensures found <==> exists k :: 0 <= k < |indices| && views[indices[k]].hasColorResidual
  {
    found := false;
    var iii := 0;
    while iii < |indices|
      invariant 0 <= iii <= |indices|
      invariant !found
      invariant forall k :: 0 <= k < iii ==> !views[indices[k]].hasColorResidual
    {
      if views[indices[iii]].hasColorResidual {
        found := true;
        break;
      }
      iii := iii + 1;
    }
  }

  /** One level of the batch loop. */
  datatype Batch = Batch(level: int, viewIndices: seq<nat>, textureResidual: bool)

  predicate AnyColorResidual(views: seq<ViewMeta>, indices: seq<nat>)
    requires forall k :: 0 <= k < |indices| ==> indices[k] < |views|
  {
    exists k :: 0 <= k < |indices| && views[indices[k]].hasColorResidual
  }

  /** The batches for levels 1..maxh, after maxh is replaced by the highest level present. */
  function Batches(views: seq<ViewMeta>): (b: seq<Batch>)
    ensures |b| == HighestLevel(views)
  {
    var maxh := HighestLevel(views);
    seq(maxh, k requires 0 <= k < maxh =>
      var idx := ViewsAtLevel(views, k + 1);
      Batch(k + 1, idx, AnyColorResidual(views, idx)))
  }

  /**
   * Batch `k` is level `k + 1`; its indices are exactly that level's views
   * in ascending order; it carries a texture residual iff one of them has
   * a colour residual.
   */
  lemma BatchContents(views: seq<ViewMeta>, k: nat, i: nat)
    requires k < |Batches(views)|
    ensures Batches(views)[k].level == k + 1
    ensures StrictlyIncreasing(Batches(views)[k].viewIndices)
    ensures i in Batches(views)[k].viewIndices <==> i < |views| && views[i].level as int == k + 1
    ensures Batches(views)[k].textureResidual <==>
      exists j :: 0 <= j < |views| && views[j].level as int == k + 1 && views[j].hasColorResidual
  {
    var idx := ViewsAtLevel(views, k + 1);
    ViewsAtLevelComplete(views, k + 1, i);
    if Batches(views)[k].textureResidual {
      var m :| 0 <= m < |idx| && views[idx[m]].hasColorResidual;
      assert views[idx[m]].level as int == k + 1;
    } else {
      forall j | 0 <= j < |views| && views[j].level as int == k + 1
        ensures !views[j].hasColorResidual
      {
        ViewsAtLevelComplete(views, k + 1, j);
        var m :| 0 <= m < |idx| && idx[m] == j;
      }
    }
  }

  /**
   * Every view of level at least 1 lands in exactly one batch, the one of
   * its own level; a view of level 0 or below lands in none.
   */
  lemma BatchesPartitionPredictedViews(views: seq<ViewMeta>, i: nat, k: nat)
    requires i < |views| && k < |Batches(views)|
    ensures i in Batches(views)[k].viewIndices <==> views[i].level as int == k + 1
    ensures views[i].level <= 0 ==> i !in Batches(views)[k].viewIndices
    ensures views[i].level >= 1 ==> views[i].level as int - 1 < |Batches(views)|
  {
    BatchContents(views, k, i);
  }
}
