/**
 * text/text_blob.cpp: what a run of shaped glyphs says about each glyph.
 *
 * A `RunInfo` is the record a shaper hands to a `RunHandler`: its glyphs,
 * their positions and optional offsets, and the cluster table mapping each
 * glyph to the byte offset (inside the run's UTF-8 range) of the text that
 * produced it.  Null arrays are `None`.  Floating-point coordinates are
 * modelled as integers.  The font's own glyph boxes and metrics come from a
 * font this model does not see, so they are parameters.
 */
module TextBlob {
  import opened Geometry
  import opened Wrappers

  /** TextBlob::Utf8Range: a half-open byte range of the text. */
  datatype Utf8Range = Utf8Range(begin: int, end: int)

  /** TextBlob::RunInfo; `font` identifies the run's font. */
  datatype RunInfo = RunInfo(
    font: nat,
    glyphCount: nat,
    rtl: bool,
    utf8Range: Utf8Range,
    glyphs: seq<nat>,
    positions: seq<Point>,
    offsets: Option<seq<Point>>,
    clusters: Option<seq<int>>,
    point: Point)
  {
    /** The required arrays hold one entry per glyph, and so do the optional ones when present. */
    predicate Wf()
    {
      |glyphs| == glyphCount && |positions| == glyphCount &&
      (offsets.Some? ==> |offsets.value| == glyphCount) &&
      (clusters.Some? ==> |clusters.value| == glyphCount)
    }
  }

  /**
   * getGlyphUtf8Range: the bytes that produced glyph `i`.  Left to right,
   * a glyph's range ends where the next glyph's cluster starts (the last
   * one at the run's end); right to left, where the previous glyph's
   * cluster starts (the first one at the run's end).  Past the last glyph
   * the range is empty at 0.
   */
  function GetGlyphUtf8Range(info: RunInfo, i: nat): (r: Utf8Range)
    requires info.Wf() && (i < info.glyphCount ==> info.clusters.Some?)
    ensures i >= info.glyphCount ==> r == Utf8Range(0, 0)
    ensures i < info.glyphCount ==> r.begin == info.utf8Range.begin + info.clusters.value[i]
    ensures i == info.glyphCount - 1 && !info.rtl ==> r.end == info.utf8Range.end
    ensures i == 0 < info.glyphCount && info.rtl ==> r.end == info.utf8Range.end
  {
    if i >= info.glyphCount then Utf8Range(0, 0)
    else
      var b := info.utf8Range.begin;
      var cl := info.clusters.value;
      if !info.rtl then
        Utf8Range(b + cl[i], if i + 1 < info.glyphCount then b + cl[i + 1] else info.utf8Range.end)
      else
        Utf8Range(b + cl[i], if i == 0 then info.utf8Range.end else b + cl[i - 1])
  }

  /**
   * Neighbouring glyphs' ranges meet: left to right a glyph's range ends
   * where the next glyph's begins, right to left where the previous
   * glyph's begins.
   */
  lemma RangesAdjacent(info: RunInfo, i: nat)
    requires info.Wf() && info.clusters.Some? && i + 1 < info.glyphCount
    ensures !info.rtl ==> GetGlyphUtf8Range(info, i).end == GetGlyphUtf8Range(info, i + 1).begin
    ensures info.rtl ==> GetGlyphUtf8Range(info, i + 1).end == GetGlyphUtf8Range(info, i).begin
  {
  }

  /** The number of bytes the glyphs `lo`..`hi`-1 cover, one range after another. */
  function SpanSum(info: RunInfo, lo: nat, hi: nat): int
    requires info.Wf() && info.clusters.Some? && lo <= hi <= info.glyphCount
    decreases hi - lo
  {
    if lo == hi then 0
    else
      var r := GetGlyphUtf8Range(info, lo);
      (r.end - r.begin) + SpanSum(info, lo + 1, hi)
  }

  lemma {:induction false} LtrSpanTelescopes(info: RunInfo, lo: nat)
    requires info.Wf() && info.clusters.Some? && !info.rtl && lo < info.glyphCount
    ensures SpanSum(info, lo, info.glyphCount) == info.utf8Range.end - GetGlyphUtf8Range(info, lo).begin
    decreases info.glyphCount - lo
  {
    if lo + 1 < info.glyphCount {
      LtrSpanTelescopes(info, lo + 1);
    }
  }

  /**
   * Left to right, the lengths of the glyph ranges add up to the bytes
   * from the first glyph's cluster to the end of the range.
   */
  lemma LtrRangesCoverRun(info: RunInfo)
    requires info.Wf() && info.clusters.Some? && !info.rtl && info.glyphCount > 0
    ensures SpanSum(info, 0, info.glyphCount) == info.utf8Range.end - info.utf8Range.begin - info.clusters.value[0]
  {
    LtrSpanTelescopes(info, 0);
  }

  lemma {:induction false} RtlSpanTelescopes(info: RunInfo, hi: nat)
    requires info.Wf() && info.clusters.Some? && info.rtl && 0 < hi <= info.glyphCount
    ensures SpanSum(info, 0, hi) == info.utf8Range.end - GetGlyphUtf8Range(info, hi - 1).begin
    decreases hi
  {
    if hi > 1 {
      RtlSpanTelescopes(info, hi - 1);
      SpanSumSplit(info, 0, hi - 1, hi);
    }
  }

  lemma {:induction false} SpanSumSplit(info: RunInfo, lo: nat, mid: nat, hi: nat)
    requires info.Wf() && info.clusters.Some? && lo <= mid <= hi <= info.glyphCount
    ensures SpanSum(info, lo, hi) == SpanSum(info, lo, mid) + SpanSum(info, mid, hi)
    decreases mid - lo
  {
    if lo < mid {
      SpanSumSplit(info, lo + 1, mid, hi);
    }
  }

  /**
   * Right to left, the lengths of the glyph ranges add up to the bytes
   * from the last glyph's cluster to the end of the range.
   */
  lemma RtlRangesCoverRun(info: RunInfo)
    requires info.Wf() && info.clusters.Some? && info.rtl && info.glyphCount > 0
    ensures SpanSum(info, 0, info.glyphCount) ==
            info.utf8Range.end - info.utf8Range.begin - info.clusters.value[info.glyphCount - 1]
  {
    RtlSpanTelescopes(info, info.glyphCount);
  }

  /** Each cluster is at most the next one. */
  predicate Ascending(cl: seq<int>)
  {
    forall k :: 0 <= k < |cl| - 1 ==> cl[k] <= cl[k + 1]
  }

  /** Each cluster is at least the next one. */
  predicate Descending(cl: seq<int>)
  {
    forall k :: 0 <= k < |cl| - 1 ==> cl[k + 1] <= cl[k]
  }

  lemma {:induction false} AscendingFar(cl: seq<int>, i: nat, j: nat)
    requires Ascending(cl) && i <= j < |cl|
    ensures cl[i] <= cl[j]
    decreases j - i
  {
    if i < j {
      AscendingFar(cl, i + 1, j);
    }
  }

  lemma {:induction false} DescendingFar(cl: seq<int>, i: nat, j: nat)
    requires Descending(cl) && i <= j < |cl|
    ensures cl[j] <= cl[i]
    decreases j - i
  {
    if i < j {
      DescendingFar(cl, i + 1, j);
    }
  }

  /** The bounds the clusters keep to: inside the run's range, the first (left to right) or last (right to left) not before its start. */
  predicate ClustersInside(info: RunInfo)
    requires info.Wf() && info.clusters.Some?
  {
    var cl := info.clusters.value;
    var n := info.glyphCount;
    n > 0 ==>
      if info.rtl then 0 <= cl[n - 1] && info.utf8Range.begin + cl[0] <= info.utf8Range.end
      else 0 <= cl[0] && info.utf8Range.begin + cl[n - 1] <= info.utf8Range.end
  }

  /** Clusters in text order for the run's direction. */
  predicate InOrder(info: RunInfo)
    requires info.clusters.Some?
  {
    if info.rtl then Descending(info.clusters.value) else Ascending(info.clusters.value)
  }

  /** One glyph's range is a range inside the run's. */
  lemma RangeInside(info: RunInfo, i: nat)
    requires info.Wf() && info.clusters.Some? && InOrder(info) && ClustersInside(info) && i < info.glyphCount
    ensures info.utf8Range.begin <= GetGlyphUtf8Range(info, i).begin <= GetGlyphUtf8Range(info, i).end <= info.utf8Range.end
  {
    var cl := info.clusters.value;
    var n := info.glyphCount;
    if info.rtl {
      DescendingFar(cl, i, n - 1);
      if i > 0 {
        DescendingFar(cl, 0, i - 1);
      }
    } else {
      AscendingFar(cl, 0, i);
      if i + 1 < n {
        AscendingFar(cl, i + 1, n - 1);
      }
    }
  }

  /** Two glyphs' ranges do not overlap: the later glyph's comes after (left to right) or before (right to left). */
  lemma RangesApart(info: RunInfo, i: nat, j: nat)
    requires info.Wf() && info.clusters.Some? && InOrder(info) && i < j < info.glyphCount
    ensures !info.rtl ==> GetGlyphUtf8Range(info, i).end <= GetGlyphUtf8Range(info, j).begin
    ensures info.rtl ==> GetGlyphUtf8Range(info, j).end <= GetGlyphUtf8Range(info, i).begin
  {
    if info.rtl {
      DescendingFar(info.clusters.value, i, j - 1);
    } else {
      AscendingFar(info.clusters.value, i + 1, j);
    }
  }

  /**
   * Left to right, with clusters that never go back and lie inside the
   * run's range, each glyph's range lies inside the run's range and a
   * later glyph's range starts no earlier than an earlier one's ends: the
   * ranges follow one another in text order without overlap.
   */
  lemma LtrRangesTile(info: RunInfo)
    requires info.Wf() && info.clusters.Some? && !info.rtl && Ascending(info.clusters.value) && ClustersInside(info)
    ensures forall i :: 0 <= i < info.glyphCount ==>
              info.utf8Range.begin <= GetGlyphUtf8Range(info, i).begin <= GetGlyphUtf8Range(info, i).end <= info.utf8Range.end
    ensures forall i, j :: 0 <= i < j < info.glyphCount ==> GetGlyphUtf8Range(info, i).end <= GetGlyphUtf8Range(info, j).begin
  {
    forall i | 0 <= i < info.glyphCount
      ensures info.utf8Range.begin <= GetGlyphUtf8Range(info, i).begin <= GetGlyphUtf8Range(info, i).end <= info.utf8Range.end
    {
      RangeInside(info, i);
    }
    forall i, j | 0 <= i < j < info.glyphCount
      ensures GetGlyphUtf8Range(info, i).end <= GetGlyphUtf8Range(info, j).begin
    {
      RangesApart(info, i, j);
    }
  }

  /**
   * Right to left, with clusters that never go forward and lie inside the
   * run's range, each glyph's range lies inside the run's range and a
   * later glyph's range ends no later than an earlier one's starts: the
   * ranges follow one another in reverse text order without overlap.
   */
  lemma RtlRangesTile(info: RunInfo)
    requires info.Wf() && info.clusters.Some? && info.rtl && Descending(info.clusters.value) && ClustersInside(info)
    ensures forall i :: 0 <= i < info.glyphCount ==>
              info.utf8Range.begin <= GetGlyphUtf8Range(info, i).begin <= GetGlyphUtf8Range(info, i).end <= info.utf8Range.end
    ensures forall i, j :: 0 <= i < j < info.glyphCount ==> GetGlyphUtf8Range(info, j).end <= GetGlyphUtf8Range(info, i).begin
  {
    forall i | 0 <= i < info.glyphCount
      ensures info.utf8Range.begin <= GetGlyphUtf8Range(info, i).begin <= GetGlyphUtf8Range(info, i).end <= info.utf8Range.end
    {
      RangeInside(info, i);
    }
    forall i, j | 0 <= i < j < info.glyphCount
      ensures GetGlyphUtf8Range(info, j).end <= GetGlyphUtf8Range(info, i).begin
    {
      RangesApart(info, i, j);
    }
  }

  /**
   * getGlyphBounds: the font's box for the glyph (a whitespace glyph with an
   * empty box gets the average character width and the cap height, drawn
   * upward), moved to the glyph's position and then by its offset when the
   * run has offsets.  Past the last glyph the result is an empty rectangle.
   */
  function GetGlyphBounds(info: RunInfo, i: nat, fontBounds: nat -> Rect, avgCharWidth: int, capHeight: int): (r: Rect)
    requires info.Wf()
    ensures i >= info.glyphCount ==> r == EmptyRect
    ensures i < info.glyphCount ==>
              var fb := fontBounds(info.glyphs[i]);
              var off := if info.offsets.Some? then info.offsets.value[i] else Point(0, 0);
              r.x == fb.x + info.positions[i].x + off.x && r.y == fb.y + info.positions[i].y + off.y &&
              (!fb.IsEmpty() ==> r.w == fb.w && r.h == fb.h) &&
              (fb.IsEmpty() ==> r.w == avgCharWidth && r.h == -capHeight)
  {
    if i >= info.glyphCount then EmptyRect
    else
      var fb := fontBounds(info.glyphs[i]);
      var bounds := if fb.IsEmpty() then fb.(w := avgCharWidth, h := -capHeight) else fb;
      var placed := bounds.Offset(info.positions[i].x, info.positions[i].y);
      if info.offsets.Some? then placed.Offset(info.offsets.value[i].x, info.offsets.value[i].y) else placed
  }
}
