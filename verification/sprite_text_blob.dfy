/**
 * text/sprite_text_blob.cpp: laying out a string with a sprite-sheet font.
 *
 * A sprite text blob is a list of runs.  A run either holds its own glyphs
 * (three parallel vectors: glyph indexes, pen positions, and clusters,
 * the byte offset of each glyph's text relative to the run's start) or
 * stands for a sub-blob made with another font.  Sub-blobs come from code
 * this model does not see; a `SubBlob` records their box and the run
 * records their own `visitRuns` reports.
 */
module SpriteTextBlob {
  import opened Geometry
  import opened Wrappers
  import TextBlob
  import Utf8
  import opened SpriteSheetFont

  /** A TextBlob made with another font: its bounds and the runs its visitRuns reports. */
  datatype SubBlob = SubBlob(bounds: Rect, visits: seq<TextBlob.RunInfo>)

  /** SpriteTextBlob::Run as stored in the blob's `Runs` vector. */
  datatype Run = Run(
    subBlob: Option<SubBlob>,
    utf8Range: TextBlob.Utf8Range,
    glyphs: seq<nat>,
    positions: seq<Point>,
    clusters: seq<int>)

  /** A SpriteTextBlob: its bounds, its font and its runs. */
  datatype Blob = Blob(bounds: Rect, font: nat, runs: seq<Run>)

  /** The `run` a blob builder fills before copying it into the runs vector. */
  class RunBuffer {
    var subBlob: Option<SubBlob>
    var utf8Range: TextBlob.Utf8Range
    var glyphs: seq<nat>
    var positions: seq<Point>
    var clusters: seq<int>

    constructor ()
      ensures subBlob == None && utf8Range == TextBlob.Utf8Range(0, 0)
      ensures glyphs == [] && positions == [] && clusters == []
    {
      subBlob := None;
      utf8Range := TextBlob.Utf8Range(0, 0);
      glyphs := [];
      positions := [];
      clusters := [];
    }

    /** Run::empty(): no glyphs of its own. */
    predicate Empty()
      reads this
    {
      glyphs == []
    }

    /** The three vectors run side by side. */
    ghost predicate Parallel()
      reads this
    {
      |glyphs| == |positions| == |clusters|
    }

    /** The copy `runs.push_back(run)` stores. */
    function Value(): (r: Run)
      reads this
      ensures r.subBlob == subBlob && r.utf8Range == utf8Range
      ensures r.glyphs == glyphs && r.positions == positions && r.clusters == clusters
    {
      Run(subBlob, utf8Range, glyphs, positions, clusters)
    }

    /** Run::add: one more glyph, at one more position, with one more cluster. */
    method Add(glyph: nat, pos: Point, cluster: int)
      modifies this
      ensures glyphs == old(glyphs) + [glyph] && positions == old(positions) + [pos]
      ensures clusters == old(clusters) + [cluster]
      ensures subBlob == old(subBlob) && utf8Range == old(utf8Range)
      ensures old(Parallel()) ==> Parallel()
    {
      glyphs := glyphs + [glyph];
      positions := positions + [pos];
      clusters := clusters + [cluster];
    }

    /** Run::clear: drops the sub-blob and the vectors; the next run starts where this one ended. */
    method Clear()
      modifies this
      ensures subBlob == None && utf8Range == TextBlob.Utf8Range(old(utf8Range.end), old(utf8Range.end))
      ensures glyphs == [] && positions == [] && clusters == []
      ensures Parallel()
    {
      subBlob := None;
      utf8Range := utf8Range.(begin := utf8Range.end);
      glyphs := [];
      positions := [];
      clusters := [];
    }
  }

  /** What `visitRuns` reports for a run of the blob's own glyphs. */
  function OwnInfo(font: nat, run: Run): (info: TextBlob.RunInfo)
    ensures info.font == font && !info.rtl && info.utf8Range == run.utf8Range
    ensures info.glyphCount == |run.glyphs| && info.glyphs == run.glyphs && info.positions == run.positions
    ensures info.clusters == Some(run.clusters) && info.offsets == None
  {
    TextBlob.RunInfo(font, |run.glyphs|, false, run.utf8Range, run.glyphs, run.positions, None, Some(run.clusters), Point(0, 0))
  }

  /**
   * The visitor calls of `visitRuns`, in order: a run with a sub-blob
   * hands over to the sub-blob's own runs; any other run is one call.
   */
  function Visits(font: nat, runs: seq<Run>): (calls: seq<TextBlob.RunInfo>)
    ensures (forall k :: 0 <= k < |runs| ==> runs[k].subBlob.None?) ==>
              |calls| == |runs| && forall k :: 0 <= k < |runs| ==> calls[k] == OwnInfo(font, runs[k])
  {
    if runs == [] then [] else RunVisits(font, runs[0]) + Visits(font, runs[1..])
  }

  /** The visitor calls for one run. */
  function RunVisits(font: nat, run: Run): seq<TextBlob.RunInfo>
  {
    if run.subBlob.Some? then run.subBlob.value.visits else [OwnInfo(font, run)]
  }

  lemma {:induction false} VisitsAppend(font: nat, a: seq<Run>, b: seq<Run>)
    ensures Visits(font, a + b) == Visits(font, a) + Visits(font, b)
    decreases |a|
  {
    if a == [] {
      assert a + b == b;
    } else {
      var ab := a + b;
      assert ab[0] == a[0] && ab[1..] == a[1..] + b;
      VisitsAppend(font, a[1..], b);
      calc {
        Visits(font, ab);
        RunVisits(font, a[0]) + Visits(font, a[1..] + b);
        RunVisits(font, a[0]) + (Visits(font, a[1..]) + Visits(font, b));
        (RunVisits(font, a[0]) + Visits(font, a[1..])) + Visits(font, b);
      }
    }
  }

  lemma VisitsNext(font: nat, runs: seq<Run>, k: nat)
    requires k < |runs|
    ensures Visits(font, runs[..k + 1]) == Visits(font, runs[..k]) + RunVisits(font, runs[k])
  {
    VisitsAppend(font, runs[..k], [runs[k]]);
    assert runs[..k + 1] == runs[..k] + [runs[k]];
    assert Visits(font, [runs[k]]) == RunVisits(font, runs[k]) + Visits(font, []);
  }

  /** SpriteTextBlob::visitRuns, with the visitor's calls collected in order. */
  method VisitRuns(blob: Blob) returns (calls: seq<TextBlob.RunInfo>)
    ensures calls == Visits(blob.font, blob.runs)
  {
    calls := [];
    for k := 0 to |blob.runs|
      invariant calls == Visits(blob.font, blob.runs[..k])
    {
      var run := blob.runs[k];
      VisitsNext(blob.font, blob.runs, k);
      if run.subBlob.Some? {
        calls := calls + run.subBlob.value.visits;
      } else {
        calls := calls + [OwnInfo(blob.font, run)];
      }
    }
    assert blob.runs[..|blob.runs|] == blob.runs;
  }

  /** A code point `Make` lays out: the font has a glyph for it, and the glyph's box is not empty. */
  predicate Drawable(f: Font, cp: int)
  {
    CodePointToGlyph(f, cp) != 0 && !GetGlyphBounds(f, CodePointToGlyph(f, cp)).IsEmpty()
  }

  /** The decoded code points `Make` keeps, in order; the others are skipped. */
  function Kept(f: Font, items: seq<Utf8.Item>): (r: seq<Utf8.Item>)
    ensures |r| <= |items|
    ensures forall k :: 0 <= k < |r| ==> Drawable(f, r[k].cp)
    ensures (forall k :: 0 <= k < |items| ==> Drawable(f, items[k].cp)) ==> r == items
  {
    if items == [] then []
    else
      var last := items[|items| - 1];
      var rest := Kept(f, items[..|items| - 1]);
      assert items == items[..|items| - 1] + [last];
      if Drawable(f, last.cp) then rest + [last] else rest
  }

  /** The width of a glyph's box, by which the pen moves. */
  function Advance(f: Font, glyph: nat): int
    requires glyph < GlyphLimit
  {
    GetGlyphBounds(f, glyph).w
  }

  /** The state of the `Make` loop: the run's three vectors, the text bounds, and the pen's x. */
  datatype Layout = Layout(glyphs: seq<nat>, positions: seq<Point>, clusters: seq<int>, bounds: Rect, pen: int)

  /** A glyph's box placed at its pen position. */
  function Placed(f: Font, glyph: nat, pos: Point): Rect
    requires glyph < GlyphLimit
  {
    GetGlyphBounds(f, glyph).Offset(pos.x, pos.y)
  }

  /**
   * The layout `Make` builds from the decoded code points: one glyph per
   * kept code point, its cluster the code point's byte offset, each pen
   * position the sum of the advances before it, on the baseline y = 0.
   */
  function Lay(f: Font, items: seq<Utf8.Item>): (l: Layout)
    ensures |l.positions| == |l.glyphs| && |l.clusters| == |l.glyphs| && |l.glyphs| <= |items|
  {
    if items == [] then Layout([], [], [], EmptyRect, 0)
    else
      var prefix := items[..|items| - 1];
      var last := items[|items| - 1];
      var l := Lay(f, prefix);
      assert items == prefix + [last];
      if !Drawable(f, last.cp) then l
      else
        var glyph := CodePointToGlyph(f, last.cp);
        var pos := Point(l.pen, 0);
        Layout(l.glyphs + [glyph], l.positions + [pos], l.clusters + [last.offset],
               Union(l.bounds, Placed(f, glyph, pos)), l.pen + Advance(f, glyph))
  }

  /**
   * The layout holds one glyph per kept code point, with that code point's
   * offset as its cluster, on the baseline; the pen starts at 0 and each
   * glyph starts where the previous one's advance ends; the bounds are
   * empty exactly when no glyph was laid out.
   */
  lemma {:induction false} LayShape(f: Font, items: seq<Utf8.Item>)
    ensures var l := Lay(f, items);
            var kept := Kept(f, items);
            |l.glyphs| == |kept| &&
            forall k :: 0 <= k < |kept| ==>
              l.glyphs[k] == CodePointToGlyph(f, kept[k].cp) && l.clusters[k] == kept[k].offset &&
              l.positions[k].y == 0
    ensures var l := Lay(f, items);
            l.glyphs == [] ==> l.pen == 0 && l.bounds == EmptyRect
    ensures var l := Lay(f, items);
            l.glyphs != [] ==>
              (l.positions[0].x == 0 && !l.bounds.IsEmpty() &&
               l.pen == l.positions[|l.glyphs| - 1].x + Advance(f, l.glyphs[|l.glyphs| - 1]))
    ensures var l := Lay(f, items);
            forall k :: 0 <= k < |l.glyphs| - 1 ==> l.positions[k + 1].x == l.positions[k].x + Advance(f, l.glyphs[k])
    decreases |items|
  {
    if items != [] {
      var prefix := items[..|items| - 1];
      var last := items[|items| - 1];
      assert items == prefix + [last];
      LayShape(f, prefix);
      LayStep(f, prefix, last);
    }
  }

  /** The text bounds hold every glyph's box at its pen position. */
  lemma {:induction false} LayBoundsHoldGlyphs(f: Font, items: seq<Utf8.Item>)
    ensures var l := Lay(f, items);
            forall k :: 0 <= k < |l.glyphs| ==>
              l.glyphs[k] < GlyphLimit && Within(Placed(f, l.glyphs[k], l.positions[k]), l.bounds)
    decreases |items|
  {
    if items != [] {
      var prefix := items[..|items| - 1];
      var last := items[|items| - 1];
      assert items == prefix + [last];
      LayBoundsHoldGlyphs(f, prefix);
      LayShape(f, prefix);
      LayShape(f, items);
      LayStep(f, prefix, last);
      var l0 := Lay(f, prefix);
      var l := Lay(f, items);
      if Drawable(f, last.cp) {
        var newBox := Placed(f, l.glyphs[|l0.glyphs|], l.positions[|l0.glyphs|]);
        assert !newBox.IsEmpty();
        forall k | 0 <= k < |l.glyphs|
          ensures Within(Placed(f, l.glyphs[k], l.positions[k]), l.bounds)
        {
          if k < |l0.glyphs| {
            assert l.glyphs[k] == l0.glyphs[k] && l.positions[k] == l0.positions[k];
            assert Within(Placed(f, l0.glyphs[k], l0.positions[k]), l0.bounds);
          }
        }
      }
    }
  }

  /** One more decoded code point: `Make`'s loop body. */
  lemma LayStep(f: Font, seen: seq<Utf8.Item>, item: Utf8.Item)
    ensures var l := Lay(f, seen);
            var glyph := CodePointToGlyph(f, item.cp);
            var pos := Point(l.pen, 0);
            Lay(f, seen + [item]) ==
              if Drawable(f, item.cp) then
                Layout(l.glyphs + [glyph], l.positions + [pos], l.clusters + [item.offset],
                       Union(l.bounds, Placed(f, glyph, pos)), l.pen + Advance(f, glyph))
              else l
  {
    assert (seen + [item])[..|seen|] == seen;
  }

  /** The blob `Make` returns for a string's decoded code points. */
  function MadeBlob(f: Font, fontId: nat, text: seq<Utf8.byte>): (b: Blob)
    ensures |b.runs| <= 1 && b.font == fontId
    ensures forall k :: 0 <= k < |b.runs| ==>
              b.runs[k].subBlob.None? && b.runs[k].glyphs != [] &&
              b.runs[k].utf8Range == TextBlob.Utf8Range(0, Utf8.StopPos(Utf8.Init(text)))
  {
    var l := Lay(f, Utf8.Items(Utf8.Init(text)));
    var runs := if l.glyphs == [] then [] else [Run(None, TextBlob.Utf8Range(0, Utf8.StopPos(Utf8.Init(text))), l.glyphs, l.positions, l.clusters)];
    Blob(l.bounds, fontId, runs)
  }

  /**
   * SpriteTextBlob::Make: one run of the glyphs the font can draw, ending
   * where decoding stopped (the end, a NUL, or the first malformed
   * sequence); code points without a glyph or with an empty box are skipped.
   */
  method Make(f: Font, fontId: nat, text: seq<Utf8.byte>) returns (blob: Blob)
    ensures blob == MadeBlob(f, fontId, text)
  {
    var run := new RunBuffer();
    var textBounds := EmptyRect;
    var pos := Point(0, 0);
    var decode := Utf8.Init(text);
    ghost var seen: seq<Utf8.Item> := [];
    while true
      invariant decode.Wf() && decode.str == text
      invariant Utf8.Items(Utf8.Init(text)) == seen + Utf8.Items(decode)
      invariant Utf8.StopPos(Utf8.Init(text)) == Utf8.StopPos(decode)
      invariant Lay(f, seen) == Layout(run.glyphs, run.positions, run.clusters, textBounds, pos.x)
      invariant run.utf8Range.begin == 0 && run.subBlob.None? && pos.y == 0
      decreases |text| - decode.pos
    {
      var i := decode.pos;
      Utf8.ItemsAdvance(text, seen, decode);
      var chr;
      chr, decode := Utf8.Next(decode);
      run.utf8Range := run.utf8Range.(end := i);
      if chr == 0 {
        break;
      }
      textBounds, pos := AddCodePoint(f, run, textBounds, pos, i, chr, seen);
      seen := seen + [Utf8.Item(i, chr)];
    }
    ghost var l := Layout(run.glyphs, run.positions, run.clusters, textBounds, pos.x);
    MadeBlobOf(f, fontId, text, seen, l, run.utf8Range.end);
    var runs: seq<Run> := [];
    if !run.Empty() {
      assert run.Value() == Run(None, TextBlob.Utf8Range(0, run.utf8Range.end), l.glyphs, l.positions, l.clusters);
      runs := runs + [run.Value()];
    }
    blob := Blob(textBounds, fontId, runs);
  }

  /** The blob of a string whose decoded code points are `seen`, laid out as `l`, decoding having stopped at `end`. */
  lemma MadeBlobOf(f: Font, fontId: nat, text: seq<Utf8.byte>, seen: seq<Utf8.Item>, l: Layout, end: int)
    requires Utf8.Items(Utf8.Init(text)) == seen && Utf8.StopPos(Utf8.Init(text)) == end && Lay(f, seen) == l
    ensures MadeBlob(f, fontId, text) ==
              Blob(l.bounds, fontId, if l.glyphs == [] then [] else [Run(None, TextBlob.Utf8Range(0, end), l.glyphs, l.positions, l.clusters)])
  {
  }

  /**
   * The rest of `Make`'s loop body for the code point `chr` at offset `i`:
   * skipped when it has no glyph or an empty box, otherwise added to the
   * run at the pen, the bounds taking in its box and the pen moving past it.
   */
  method AddCodePoint(f: Font, run: RunBuffer, textBounds: Rect, pos: Point, i: nat, chr: int,
                      ghost seen: seq<Utf8.Item>)
    returns (textBounds': Rect, pos': Point)
    requires Lay(f, seen) == Layout(run.glyphs, run.positions, run.clusters, textBounds, pos.x)
    requires run.utf8Range.begin == 0 && pos.y == 0
    modifies run
    ensures Lay(f, seen + [Utf8.Item(i, chr)]) == Layout(run.glyphs, run.positions, run.clusters, textBounds', pos'.x)
    ensures run.utf8Range == old(run.utf8Range) && run.subBlob == old(run.subBlob) && pos'.y == 0
  {
    LayStep(f, seen, Utf8.Item(i, chr));
    textBounds', pos' := textBounds, pos;
    var glyph := CodePointToGlyph(f, chr);
    if glyph == 0 {
      return;
    }
    var glyphBounds := GetGlyphBounds(f, glyph);
    if glyphBounds.IsEmpty() {
      return;
    }
    run.Add(glyph, pos, i - run.utf8Range.begin);
    glyphBounds := glyphBounds.Offset(pos.x, pos.y);
    textBounds' := Union(textBounds, glyphBounds);
    pos' := pos.(x := pos.x + glyphBounds.w);
  }

  /** Every glyph `Make` lays out carries the byte offset of its code point, and the ones it drops are exactly those it cannot draw. */
  lemma MakeKeepsOffsets(f: Font, fontId: nat, text: seq<Utf8.byte>)
    ensures var items := Utf8.Items(Utf8.Init(text));
            var b := MadeBlob(f, fontId, text);
            (Kept(f, items) == [] <==> b.runs == []) &&
            forall r :: 0 <= r < |b.runs| ==>
              |b.runs[r].clusters| == |Kept(f, items)| &&
              forall k :: 0 <= k < |b.runs[r].clusters| ==> b.runs[r].clusters[k] == Kept(f, items)[k].offset
  {
    LayShape(f, Utf8.Items(Utf8.Init(text)));
  }

  /** The blob's own runs are reported once each, with the blob's font and left to right. */
  lemma MadeBlobVisits(f: Font, fontId: nat, text: seq<Utf8.byte>)
    ensures var b := MadeBlob(f, fontId, text);
            var calls := Visits(b.font, b.runs);
            |calls| == |b.runs| &&
            forall k :: 0 <= k < |calls| ==> calls[k].font == fontId && !calls[k].rtl && calls[k].utf8Range.begin == 0
  {
  }
}
