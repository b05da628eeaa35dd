/**
 * The residual-read loop of `decoder::decode_views`: views are visited in
 * index order; a texture-residual segment is pulled only while fewer
 * levels have been read than the view's level, and a depth-residual
 * segment is pulled for every view that has one.
 */
module ResidualGate {
  import opened Bytes

  /** The per-view metadata the read loop consults. */
  datatype ViewMeta = ViewMeta(level: int32, hasColorResidual: bool, hasDepthResidual: bool)

  /** A segment pulled from the stream, tagged with the view that pulled it. */
  datatype Read = TextureSegment(view: nat) | DepthSegment(view: nat)

  /**
   * `levelsWritten` is the size of `levels_already_written_to_codestream`
   * (every entry is `true`, so only its size matters); `pulled` the segments
   * pulled so far, in stream order.
   */
  datatype GateState = GateState(levelsWritten: nat, pulled: seq<Read>)

  /**
   * The comparison `size() < level` converts the int level to size_t, so
   * a negative level becomes a huge unsigned value.
   */
  function AsSize(level: int32): nat
  {
    if level >= 0 then level as nat else (level as int + 0x1_0000_0000_0000_0000) as nat
  }

  /** Whether a view pulls a texture segment when `written` levels are already read. */
  predicate PullsTexture(written: nat, v: ViewMeta)
  {
    v.hasColorResidual && written < AsSize(v.level)
  }

  /**
   * One iteration of the loop for view `i`: colour check first, then depth.
   * Reads are only appended, each names view `i`, and at most one level is
   * recorded.
   */
  function Step(s: GateState, i: nat, v: ViewMeta): (r: GateState)
    ensures |s.pulled| <= |r.pulled| <= |s.pulled| + 2 && r.pulled[..|s.pulled|] == s.pulled
    ensures forall k :: |s.pulled| <= k < |r.pulled| ==> r.pulled[k].view == i
    ensures s.levelsWritten <= r.levelsWritten <= s.levelsWritten + 1
  {
    var afterColor :=
      if PullsTexture(s.levelsWritten, v) then
        GateState(s.levelsWritten + 1, s.pulled + [TextureSegment(i)])
      else s;
    if v.hasDepthResidual then afterColor.(pulled := afterColor.pulled + [DepthSegment(i)])
    else afterColor
  }

  /**
   * The loop's state after visiting every view of `views` in index order:
   * at most one level recorded and at most two segments pulled per view.
   */
  function Gate(views: seq<ViewMeta>): (r: GateState)
    ensures r.levelsWritten <= |views|
    ensures |r.pulled| <= 2 * |views|
  {
    if |views| == 0 then GateState(0, [])
    else Step(Gate(views[..|views| - 1]), |views| - 1, views[|views| - 1])
  }

  /** Position of a read in the order the loop issues them: by view, texture before depth. */
  function Key(r: Read): nat
  {
    match r
    case TextureSegment(i) => 2 * i
    case DepthSegment(i) => 2 * i + 1
  }

  predicate Increasing(pulled: seq<Read>)
  {
    forall j, k :: 0 <= j < k < |pulled| ==> Key(pulled[j]) < Key(pulled[k])
  }

  function TextureReads(pulled: seq<Read>): nat
  {
    if |pulled| == 0 then 0
    else TextureReads(pulled[..|pulled| - 1]) + (if pulled[|pulled| - 1].TextureSegment? then 1 else 0)
  }

  /** Highest level among views with a colour residual, 0 if there is none. */
  function MaxColorLevel(views: seq<ViewMeta>): int
  {
    if |views| == 0 then 0
    else
      var m := MaxColorLevel(views[..|views| - 1]);
      var v := views[|views| - 1];
      if v.hasColorResidual && v.level as int > m then v.level as int else m
  }

  predicate NonNegativeLevels(views: seq<ViewMeta>)
  {
    forall i :: 0 <= i < |views| ==> views[i].level >= 0
  }

  /**
   * The loop as the source writes it, over a vector of views; it computes
   * the same state as the fold `Gate`.
   */
  method CollectReads(views: seq<ViewMeta>) returns (written: nat, pulled: seq<Read>)
    ensures GateState(written, pulled) == Gate(views)
  {
    written := 0;
    pulled := [];
    var ii := 0;
    while ii < |views|
      invariant 0 <= ii <= |views|
      invariant GateState(written, pulled) == Gate(views[..ii])
    {
      var v := views[ii];
      if v.hasColorResidual {
        if written < AsSize(v.level) {
          pulled := pulled + [TextureSegment(ii)];
          written := written + 1;
        }
      }
      if v.hasDepthResidual {
        pulled := pulled + [DepthSegment(ii)];
      }
      assert views[..ii + 1][..ii] == views[..ii];
      ii := ii + 1;
    }
    assert views[..ii] == views;
  }

  /** Every read names a view already visited. */
  lemma {:induction false} ReadsNameVisitedViews(views: seq<ViewMeta>)
    ensures forall k :: 0 <= k < |Gate(views).pulled| ==> Gate(views).pulled[k].view < |views|
    ensures forall k :: 0 <= k < |Gate(views).pulled| ==> Key(Gate(views).pulled[k]) < 2 * |views|
  {
    if |views| > 0 {
      ReadsNameVisitedViews(views[..|views| - 1]);
    }
  }

  /**
   * Reads come out in view order, a view's texture read before its depth
   * read, and no read twice.
   */
  lemma {:induction false} ReadsInViewOrder(views: seq<ViewMeta>)
    ensures Increasing(Gate(views).pulled)
  {
    if |views| > 0 {
      var p := views[..|views| - 1];
      ReadsInViewOrder(p);
      ReadsNameVisitedViews(p);
    }
  }

  /** Each texture read appends exactly one entry to the level vector. */
  lemma {:induction false} WrittenCountsTextureReads(views: seq<ViewMeta>)
    ensures Gate(views).levelsWritten == TextureReads(Gate(views).pulled)
  {
    if |views| > 0 {
      var p := views[..|views| - 1];
      WrittenCountsTextureReads(p);
      var s := Gate(p);
      var v := views[|views| - 1];
      var mid := if PullsTexture(s.levelsWritten, v) then s.pulled + [TextureSegment(|views| - 1)] else s.pulled;
      if PullsTexture(s.levelsWritten, v) {
        assert mid[..|mid| - 1] == s.pulled;
      }
      if v.hasDepthResidual {
        assert (mid + [DepthSegment(|views| - 1)])[..|mid|] == mid;
      }
    }
  }

  /**
   * View `i` pulls a texture segment exactly when it has a colour residual
   * and fewer levels were read before it than its level.
   */
  lemma {:induction false} TextureReadIff(views: seq<ViewMeta>, i: nat)
    requires i < |views|
    ensures TextureSegment(i) in Gate(views).pulled <==> PullsTexture(Gate(views[..i]).levelsWritten, views[i])
  {
    var n := |views|;
    var p := views[..n - 1];
    ReadsNameVisitedViews(p);
    if i < n - 1 {
      TextureReadIff(p, i);
      assert p[..i] == views[..i];
    } else {
      assert p == views[..i];
      assert TextureSegment(i) !in Gate(p).pulled;
    }
  }

  /** View `i` pulls a depth segment exactly when it has a depth residual. */
  lemma {:induction false} DepthReadIff(views: seq<ViewMeta>, i: nat)
    requires i < |views|
    ensures DepthSegment(i) in Gate(views).pulled <==> views[i].hasDepthResidual
  {
    var n := |views|;
    var p := views[..n - 1];
    ReadsNameVisitedViews(p);
    if i < n - 1 {
      DepthReadIff(p, i);
    } else {
      assert DepthSegment(i) !in Gate(p).pulled;
    }
  }

  /**
   * A view pulls at most one depth segment, and a texture segment it pulls
   * comes before its depth segment in the stream.
   */
  lemma TextureBeforeDepth(views: seq<ViewMeta>, i: nat, j: nat, k: nat)
    requires j < |Gate(views).pulled| && k < |Gate(views).pulled|
    requires Gate(views).pulled[k] == DepthSegment(i)
    ensures Gate(views).pulled[j] == TextureSegment(i) ==> j < k
    ensures Gate(views).pulled[j] == DepthSegment(i) ==> j == k
  {
    ReadsInViewOrder(views);
    var r := Gate(views).pulled;
    if j < k {
      assert Key(r[j]) < Key(r[k]);
    } else if k < j {
      assert Key(r[k]) < Key(r[j]);
    }
  }

  /** A level-0 view never pulls a texture segment. */
  lemma LevelZeroNeverReadsTexture(views: seq<ViewMeta>, i: nat)
    requires i < |views| && views[i].level == 0
    ensures TextureSegment(i) !in Gate(views).pulled
  {
    TextureReadIff(views, i);
  }

  /**
   * With non-negative levels the level vector never grows past the highest
   * level of a colour-residual view.
   */
  lemma {:induction false} WrittenBoundedByMaxLevel(views: seq<ViewMeta>)
    requires NonNegativeLevels(views)
    ensures Gate(views).levelsWritten <= MaxColorLevel(views)
  {
    if |views| > 0 {
      var p := views[..|views| - 1];
      assert NonNegativeLevels(p) by {
        forall i | 0 <= i < |p| ensures p[i].level >= 0 {
          assert p[i] == views[i];
        }
      }
      WrittenBoundedByMaxLevel(p);
    }
  }

  /** Every colour-residual view's level is at most one above the levels before it. */
  predicate NoLevelGaps(views: seq<ViewMeta>)
  {
    forall i :: 0 <= i < |views| && views[i].hasColorResidual ==>
      views[i].level as int <= MaxColorLevel(views[..i]) + 1
  }

  /**
   * When colour-residual levels appear without gaps, exactly one texture
   * segment is read per level: the level vector ends at the highest level.
   */
  lemma {:induction false} OneSegmentPerLevel(views: seq<ViewMeta>)
    requires NonNegativeLevels(views)
    requires NoLevelGaps(views)
    ensures Gate(views).levelsWritten == MaxColorLevel(views)
  {
    if |views| > 0 {
      var n := |views|;
      var p := views[..n - 1];
      assert NonNegativeLevels(p) by {
        forall i | 0 <= i < |p| ensures p[i].level >= 0 {
          assert p[i] == views[i];
        }
      }
      assert NoLevelGaps(p) by {
        forall i | 0 <= i < |p| && p[i].hasColorResidual
          ensures p[i].level as int <= MaxColorLevel(p[..i]) + 1
        {
          assert p[i] == views[i];
          assert p[..i] == views[..i];
        }
      }
      OneSegmentPerLevel(p);
      assert views[..n - 1] == p;
    }
  }

  /**
   * A colour-residual view with a negative level always pulls a texture
   * segment: the level converts to a size no count can reach.
   */
  lemma NegativeLevelAlwaysReads(views: seq<ViewMeta>, i: nat)
    requires i < |views| < 0x8000_0000
    requires views[i].hasColorResidual && views[i].level < 0
    ensures TextureSegment(i) in Gate(views).pulled
  {
    TextureReadIff(views, i);
  }
}
