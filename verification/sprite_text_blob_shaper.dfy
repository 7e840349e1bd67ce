/**
 * text/sprite_text_blob_shaper.cpp: shaping a string with a sprite-sheet
 * font and falling back to another font for code points it lacks.
 *
 * Stretches of code points without a sprite glyph go to a shaper for the
 * fallback font, a call into code this model does not see: it is the
 * parameter `shape`, which, given the stretch's bytes, yields the runs it
 * commits to its handler and the blob it returns (none when it fails).
 * The caller's handler is the `log` the method returns: the runs
 * committed to it, in order; `hasHandler` says whether there is one.
 */
module SpriteTextBlobShaper {
  import opened Geometry
  import opened Wrappers
  import TextBlob
  import Utf8
  import opened SpriteSheetFont
  import opened SpriteTextBlob

  /** What shaping a stretch with the fallback font does: the runs it commits, and the blob it returns. */
  datatype Shaped = Shaped(committed: seq<TextBlob.RunInfo>, blob: Option<SubBlob>)

  /**
   * OffsetHandler: the handler given to the fallback shaper.  Its runs are
   * told in the sub-string's byte offsets; the handler moves them by
   * `offsetUtf8` into the whole string, sets their origin, and passes them
   * on when there is an original handler.
   */
  datatype OffsetHandler = OffsetHandler(hasOriginal: bool, offsetUtf8: int, offsetOrigin: Point)
  {
    /** commitRunBuffer's change to the run info. */
    function Adjust(info: TextBlob.RunInfo): (r: TextBlob.RunInfo)
      ensures r.utf8Range.begin == info.utf8Range.begin + offsetUtf8
      ensures r.utf8Range.end == info.utf8Range.end + offsetUtf8
      ensures r.point == offsetOrigin
      ensures r.(utf8Range := info.utf8Range, point := info.point) == info
    {
      info.(utf8Range := TextBlob.Utf8Range(info.utf8Range.begin + offsetUtf8, info.utf8Range.end + offsetUtf8),
            point := offsetOrigin)
    }

    /** What the original handler receives for the runs committed to this one. */
    function Forward(infos: seq<TextBlob.RunInfo>): (r: seq<TextBlob.RunInfo>)
      ensures !hasOriginal ==> r == []
      ensures hasOriginal ==> |r| == |infos| && forall k :: 0 <= k < |infos| ==> r[k] == Adjust(infos[k])
    {
      if !hasOriginal then [] else seq(|infos|, k requires 0 <= k < |infos| => Adjust(infos[k]))
    }
  }

  /** An adjusted run keeps its glyphs and its byte count, and moving it back by the same offset restores it. */
  lemma AdjustRoundTrip(h: OffsetHandler, info: TextBlob.RunInfo)
    ensures h.Adjust(info).Wf() == info.Wf()
    ensures h.Adjust(info).utf8Range.end - h.Adjust(info).utf8Range.begin == info.utf8Range.end - info.utf8Range.begin
    ensures OffsetHandler(h.hasOriginal, -h.offsetUtf8, info.point).Adjust(h.Adjust(info)) == info
  {
  }

  /**
   * Fallback stretches inside fallback stretches: two offset handlers in a
   * chain move a run by the sum of their offsets and leave the outer origin.
   */
  lemma AdjustNested(inner: OffsetHandler, outer: OffsetHandler, info: TextBlob.RunInfo)
    ensures outer.Adjust(inner.Adjust(info)) ==
            OffsetHandler(outer.hasOriginal, inner.offsetUtf8 + outer.offsetUtf8, outer.offsetOrigin).Adjust(info)
  {
  }

  /** A glyph index `MakeWithShaper` lays out from the sprite font. */
  predicate DrawableGlyph(f: Font, g: nat)
  {
    g != 0 && g < GlyphLimit && !GetGlyphBounds(f, g).IsEmpty()
  }

  /**
   * A run of sprite glyphs as it is stored: parallel vectors, glyphs the
   * font can draw on the baseline, each pen position one advance after the
   * previous one, and clusters increasing inside the run's byte range.
   */
  predicate GlyphRunWf(f: Font, run: Run)
  {
    run.subBlob.None? && run.glyphs != [] &&
    |run.positions| == |run.glyphs| && |run.clusters| == |run.glyphs| &&
    (forall k :: 0 <= k < |run.glyphs| ==>
       DrawableGlyph(f, run.glyphs[k]) && run.positions[k].y == 0 &&
       0 <= run.clusters[k] < run.utf8Range.end - run.utf8Range.begin) &&
    (forall k :: 0 <= k < |run.glyphs| - 1 ==>
       run.clusters[k] < run.clusters[k + 1] &&
       run.positions[k + 1].x == run.positions[k].x + Advance(f, run.glyphs[k]))
  }

  /**
   * A fallback run as it is stored: a non-empty byte range whose bytes the
   * fallback shaper made the run's blob from, no glyphs of its own, and the
   * one pen position where the blob starts.
   */
  predicate FallbackRunWf(text: seq<Utf8.byte>, shape: seq<Utf8.byte> -> Shaped, run: Run)
  {
    run.subBlob.Some? && 0 <= run.utf8Range.begin < run.utf8Range.end <= |text| &&
    run.subBlob == shape(text[run.utf8Range.begin..run.utf8Range.end]).blob &&
    run.glyphs == [] && run.clusters == [] && |run.positions| == 1 && run.positions[0].y == 0
  }

  /** The runs follow the text: byte ranges inside it, in order, without overlap. */
  predicate RunsWf(f: Font, text: seq<Utf8.byte>, shape: seq<Utf8.byte> -> Shaped, runs: seq<Run>)
  {
    (forall k :: 0 <= k < |runs| ==>
       0 <= runs[k].utf8Range.begin <= runs[k].utf8Range.end <= |text| &&
       (GlyphRunWf(f, runs[k]) || FallbackRunWf(text, shape, runs[k]))) &&
    (forall k :: 0 <= k < |runs| - 1 ==> runs[k].utf8Range.end <= runs[k + 1].utf8Range.begin)
  }

  /**
   * The origin a fallback blob is drawn at: the pen's x, and the height
   * that puts its baseline on the sprite font's (the sprite ascent is
   * subtracted, the fallback ascent added).
   */
  function Aligned(f: Font, pen: Point, fallbackAscent: int): (p: Point)
    ensures p.x == pen.x && p.y == pen.y + Height(f) + fallbackAscent
  {
    Point(pen.x, pen.y - Metrics(f).1 + fallbackAscent)
  }

  /** The box the text bounds take in for a fallback blob, as the source computes it: the blob's own bounds, unmoved. */
  function FallbackBoxAsWritten(sub: SubBlob, origin: Point): (r: Rect)
    ensures r == sub.bounds
  {
    sub.bounds
  }

  /** The box a fallback blob covers once drawn at its origin. */
  function FallbackBox(sub: SubBlob, origin: Point): (r: Rect)
    ensures r.w == sub.bounds.w && r.h == sub.bounds.h
    ensures r.x == sub.bounds.x + origin.x && r.y == sub.bounds.y + origin.y
  {
    sub.bounds.Offset(origin.x, origin.y)
  }

  /**
   * A sprite glyph 5 wide, then a fallback blob 7 wide drawn after it at
   * x = 5: the bounds as written end at x = 7, so the blob, which reaches
   * x = 12, is not within them.
   */
  lemma FallbackBoxAsWrittenMissesBlob()
    ensures !Within(FallbackBox(SubBlob(Rect(0, 0, 7, 10), []), Point(5, 0)),
                    Union(Rect(0, 0, 5, 10), FallbackBoxAsWritten(SubBlob(Rect(0, 0, 7, 10), []), Point(5, 0))))
  {
  }

  /** Every box a run draws lies within the bounds. */
  predicate RunInside(f: Font, fallbackAscent: int, run: Run, bounds: Rect)
  {
    (run.subBlob.None? ==>
       forall k :: 0 <= k < |run.glyphs| && k < |run.positions| && run.glyphs[k] < GlyphLimit ==>
         Within(Placed(f, run.glyphs[k], run.positions[k]), bounds)) &&
    (run.subBlob.Some? && |run.positions| == 1 ==>
       var box := FallbackBox(run.subBlob.value, Aligned(f, run.positions[0], fallbackAscent));
       !box.IsEmpty() ==> Within(box, bounds))
  }

  /** A run's drawn boxes are never empty, so `|=` keeps them inside. */
  lemma RunInsideUnion(f: Font, fallbackAscent: int, run: Run, a: Rect, b: Rect)
    requires run.subBlob.None? ==> forall k :: 0 <= k < |run.glyphs| ==> DrawableGlyph(f, run.glyphs[k])
    requires RunInside(f, fallbackAscent, run, a)
    ensures RunInside(f, fallbackAscent, run, Union(a, b))
  {
    if run.subBlob.None? {
      forall k | 0 <= k < |run.glyphs| && k < |run.positions| && run.glyphs[k] < GlyphLimit
        ensures Within(Placed(f, run.glyphs[k], run.positions[k]), Union(a, b))
      {
        UnionWithin(a, b, Placed(f, run.glyphs[k], run.positions[k]));
      }
    } else if |run.positions| == 1 {
      UnionWithin(a, b, FallbackBox(run.subBlob.value, Aligned(f, run.positions[0], fallbackAscent)));
    }
  }

  lemma RunsInsideUnion(f: Font, text: seq<Utf8.byte>, shape: seq<Utf8.byte> -> Shaped, fallbackAscent: int,
                        runs: seq<Run>, a: Rect, b: Rect)
    requires RunsWf(f, text, shape, runs)
    requires forall k :: 0 <= k < |runs| ==> RunInside(f, fallbackAscent, runs[k], a)
    ensures forall k :: 0 <= k < |runs| ==> RunInside(f, fallbackAscent, runs[k], Union(a, b))
  {
    forall k | 0 <= k < |runs|
      ensures RunInside(f, fallbackAscent, runs[k], Union(a, b))
    {
      RunInsideUnion(f, fallbackAscent, runs[k], a, b);
    }
  }

  /** The infos the handler gets for the blob's own sprite runs, in order. */
  function OwnInfos(font: nat, runs: seq<Run>): (r: seq<TextBlob.RunInfo>)
    ensures |r| <= |runs|
  {
    if runs == [] then []
    else
      var last := runs[|runs| - 1];
      OwnInfos(font, runs[..|runs| - 1]) + (if last.subBlob.None? then [OwnInfo(font, last)] else [])
  }

  /** With no fallback run, the handler hears exactly what `visitRuns` reports later. */
  lemma {:induction false} OwnInfosAreVisits(font: nat, runs: seq<Run>)
    requires forall k :: 0 <= k < |runs| ==> runs[k].subBlob.None?
    ensures OwnInfos(font, runs) == Visits(font, runs)
    decreases |runs|
  {
    if runs != [] {
      var last := runs[|runs| - 1];
      OwnInfosAreVisits(font, runs[..|runs| - 1]);
      VisitsAppend(font, runs[..|runs| - 1], [last]);
      assert runs == runs[..|runs| - 1] + [last];
    }
  }

  /** `a` is `b` with some elements left out, the rest kept in order. */
  predicate IsSubsequence<T(==)>(a: seq<T>, b: seq<T>)
    decreases |b|
  {
    if a == [] then true
    else if b == [] then false
    else
      (a[|a| - 1] == b[|b| - 1] && IsSubsequence(a[..|a| - 1], b[..|b| - 1])) ||
      IsSubsequence(a, b[..|b| - 1])
  }

  lemma SubsequenceAppend<T>(a: seq<T>, b: seq<T>, x: T)
    requires IsSubsequence(a, b)
    ensures IsSubsequence(a, b + [x])
  {
    assert (b + [x])[..|b|] == b;
  }

  lemma {:induction false} SubsequenceExtend<T>(a: seq<T>, b: seq<T>, c: seq<T>)
    requires IsSubsequence(a, b)
    ensures IsSubsequence(a, b + c)
    decreases |c|
  {
    if c == [] {
      assert b + c == b;
    } else {
      var c' := c[..|c| - 1];
      SubsequenceExtend(a, b, c');
      SubsequenceAppend(a, b + c', c[|c| - 1]);
      assert b + c == (b + c') + [c[|c| - 1]];
    }
  }

  lemma SubsequenceBoth<T>(a: seq<T>, b: seq<T>, x: T)
    requires IsSubsequence(a, b)
    ensures IsSubsequence(a + [x], b + [x])
  {
    assert (a + [x])[..|a|] == a;
    assert (b + [x])[..|b|] == b;
  }

  /** The handler's log never leaves out nor reorders the sprite runs, whatever the fallback shaper commits. */
  lemma OwnRunsLogged(font: nat, runs: seq<Run>, log: seq<TextBlob.RunInfo>, extra: seq<TextBlob.RunInfo>, run: Run)
    requires IsSubsequence(OwnInfos(font, runs), log)
    ensures IsSubsequence(OwnInfos(font, runs), log + extra)
    ensures IsSubsequence(OwnInfos(font, runs + [run]), log + (if run.subBlob.None? then [OwnInfo(font, run)] else []))
  {
    SubsequenceExtend(OwnInfos(font, runs), log, extra);
    assert (runs + [run])[..|runs|] == runs;
    if run.subBlob.None? {
      SubsequenceBoth(OwnInfos(font, runs), log, OwnInfo(font, run));
    } else {
      assert OwnInfos(font, runs + [run]) == OwnInfos(font, runs);
      assert log + [] == log;
    }
  }

  /** The fixed inputs of `MakeWithShaper`. */
  datatype Setup = Setup(
    f: Font,
    text: seq<Utf8.byte>,
    shape: seq<Utf8.byte> -> Shaped,
    fallbackAscent: int,
    font: nat,
    hasHandler: bool)
  {
    /** The fallback shaper never commits a run. */
    ghost predicate Quiet()
    {
      forall s :: shape(s).committed == []
    }
  }

  /**
   * The state of the `MakeWithShaper` loop: the byte offset `at` where the
   * next code point starts, the current run, the pen, the stored runs, the
   * text bounds, and what the handler has received.
   */
  datatype Builder = Builder(at: nat, run: Run, pen: Point, runs: seq<Run>, bounds: Rect, log: seq<TextBlob.RunInfo>)

  /**
   * The current run: sprite glyphs on the baseline with their clusters
   * before `at`, one advance apart, the pen just after the last.
   */
  predicate CurrentWf(c: Setup, b: Builder)
  {
    var cur := b.run;
    cur.subBlob.None? && |cur.positions| == |cur.glyphs| && |cur.clusters| == |cur.glyphs| && b.pen.y == 0 &&
    0 <= cur.utf8Range.begin <= b.at &&
    (forall k :: 0 <= k < |cur.glyphs| ==>
       DrawableGlyph(c.f, cur.glyphs[k]) && cur.positions[k].y == 0 &&
       0 <= cur.clusters[k] && cur.utf8Range.begin + cur.clusters[k] < b.at) &&
    (forall k :: 0 <= k < |cur.glyphs| - 1 ==>
       cur.clusters[k] < cur.clusters[k + 1] &&
       cur.positions[k + 1].x == cur.positions[k].x + Advance(c.f, cur.glyphs[k])) &&
    (cur.glyphs != [] ==>
       b.pen.x == cur.positions[|cur.glyphs| - 1].x + Advance(c.f, cur.glyphs[|cur.glyphs| - 1]))
  }

  /** The stored runs are well formed and end before the current run begins. */
  predicate StoredWf(c: Setup, b: Builder)
  {
    RunsWf(c.f, c.text, c.shape, b.runs) &&
    (forall k :: 0 <= k < |b.runs| ==> b.runs[k].utf8Range.end <= b.run.utf8Range.begin)
  }

  /** Every run, stored or current, lies within the text bounds. */
  predicate InsideBounds(c: Setup, b: Builder)
  {
    (forall k :: 0 <= k < |b.runs| ==> RunInside(c.f, c.fallbackAscent, b.runs[k], b.bounds)) &&
    RunInside(c.f, c.fallbackAscent, b.run, b.bounds)
  }

  /**
   * The handler has heard nothing without a handler; with one, every stored
   * sprite run in order, among what the fallback shaper committed; and
   * exactly the sprite runs when the fallback shaper commits nothing.
   */
  ghost predicate LogWf(c: Setup, b: Builder)
  {
    (!c.hasHandler ==> b.log == []) &&
    (c.hasHandler ==> IsSubsequence(OwnInfos(c.font, b.runs), b.log)) &&
    (c.Quiet() ==> b.log == (if c.hasHandler then OwnInfos(c.font, b.runs) else []))
  }

  /** The loop invariant of `MakeWithShaper`. */
  ghost predicate Valid(c: Setup, b: Builder)
  {
    b.at <= |c.text| && CurrentWf(c, b) && StoredWf(c, b) && InsideBounds(c, b) && LogWf(c, b)
  }

  /** The state before the first code point. */
  lemma ValidStart(c: Setup)
    ensures Valid(c, Builder(0, Run(None, TextBlob.Utf8Range(0, 0), [], [], []), Point(0, 0), [], EmptyRect, []))
  {
  }

  /** Setting the run's end keeps the invariant: it speaks of where the run begins, not of where it ends. */
  lemma ValidMarkEnd(c: Setup, b: Builder, end: int)
    requires Valid(c, b)
    ensures Valid(c, b.(run := b.run.(utf8Range := TextBlob.Utf8Range(b.run.utf8Range.begin, end))))
  {
  }

  /** Reading past a code point that adds nothing keeps the invariant. */
  lemma ValidSkip(c: Setup, at: nat, cur: Run, pen: Point, runs: seq<Run>, bounds: Rect, log: seq<TextBlob.RunInfo>, at': nat)
    requires Valid(c, Builder(at, cur, pen, runs, bounds, log)) && at <= at' <= |c.text|
    ensures Valid(c, Builder(at', cur, pen, runs, bounds, log))
  {
  }

  /** The state after `run.add` of a sprite glyph at the pen, the text bounds taking in its box, the pen moving past it. */
  function AfterGlyph(c: Setup, b: Builder, glyph: nat, at: nat): (r: Builder)
    requires glyph < GlyphLimit
    ensures r.at == at && r.runs == b.runs && r.log == b.log
    ensures r.run.subBlob == b.run.subBlob && r.run.utf8Range == b.run.utf8Range
    ensures r.run.glyphs == b.run.glyphs + [glyph] && r.run.positions == b.run.positions + [b.pen]
    ensures r.run.clusters == b.run.clusters + [b.at - b.run.utf8Range.begin]
    ensures r.pen == b.pen.(x := b.pen.x + Advance(c.f, glyph))
  {
    var cur := b.run;
    var box := Placed(c.f, glyph, b.pen);
    Builder(at,
            cur.(glyphs := cur.glyphs + [glyph], positions := cur.positions + [b.pen],
                 clusters := cur.clusters + [b.at - cur.utf8Range.begin]),
            b.pen.(x := b.pen.x + box.w), b.runs, Union(b.bounds, box), b.log)
  }

  /** Adding a glyph keeps the current run well formed: its cluster is `at`'s old value, its pen position the old pen. */
  lemma AfterGlyphCurrent(c: Setup, b: Builder, glyph: nat, at: nat)
    requires CurrentWf(c, b) && b.at < at && DrawableGlyph(c.f, glyph)
    ensures CurrentWf(c, AfterGlyph(c, b, glyph, at))
  {
  }

  /** Adding a glyph keeps every run within the bounds, which take in the new glyph's box. */
  lemma AfterGlyphInside(c: Setup, b: Builder, glyph: nat, at: nat)
    requires Valid(c, b) && DrawableGlyph(c.f, glyph)
    ensures InsideBounds(c, AfterGlyph(c, b, glyph, at))
  {
    var cur := b.run;
    var box := Placed(c.f, glyph, b.pen);
    var cur' := AfterGlyph(c, b, glyph, at).run;
    RunsInsideUnion(c.f, c.text, c.shape, c.fallbackAscent, b.runs, b.bounds, box);
    RunInsideUnion(c.f, c.fallbackAscent, cur, b.bounds, box);
    UnionWithin(b.bounds, box, box);
    assert RunInside(c.f, c.fallbackAscent, cur', Union(b.bounds, box)) by {
      forall k | 0 <= k < |cur'.glyphs|
        ensures Within(Placed(c.f, cur'.glyphs[k], cur'.positions[k]), Union(b.bounds, box))
      {
        if k < |cur.glyphs| {
          assert cur'.glyphs[k] == cur.glyphs[k] && cur'.positions[k] == cur.positions[k];
        }
      }
    }
  }

  /** `run.add` of a sprite glyph keeps the invariant. */
  lemma ValidAddGlyph(c: Setup, b: Builder, glyph: nat, at: nat)
    requires Valid(c, b) && b.at < at <= |c.text| && DrawableGlyph(c.f, glyph)
    ensures Valid(c, AfterGlyph(c, b, glyph, at))
  {
    AfterGlyphCurrent(c, b, glyph, at);
    AfterGlyphInside(c, b, glyph, at);
  }

  /** The run stored when a sprite run is closed at `at`. */
  function Closed(b: Builder): (r: Run)
    ensures r.utf8Range.end == b.at
    ensures r.(utf8Range := b.run.utf8Range) == b.run
  {
    b.run.(utf8Range := b.run.utf8Range.(end := b.at))
  }

  /** Storing one more run that starts where the stored ones end keeps them well formed. */
  lemma RunsWfAppend(f: Font, text: seq<Utf8.byte>, shape: seq<Utf8.byte> -> Shaped, runs: seq<Run>, run: Run)
    requires RunsWf(f, text, shape, runs)
    requires 0 <= run.utf8Range.begin <= run.utf8Range.end <= |text|
    requires GlyphRunWf(f, run) || FallbackRunWf(text, shape, run)
    requires forall k :: 0 <= k < |runs| ==> runs[k].utf8Range.end <= run.utf8Range.begin
    ensures RunsWf(f, text, shape, runs + [run])
  {
    var runs' := runs + [run];
    assert forall k :: 0 <= k < |runs| ==> runs'[k] == runs[k];
  }

  /** The current sprite run, closed at `at`, is a well-formed run inside the text bounds. */
  lemma ClosedRunWf(c: Setup, b: Builder)
    requires Valid(c, b) && b.run.glyphs != []
    ensures GlyphRunWf(c.f, Closed(b))
    ensures 0 <= Closed(b).utf8Range.begin <= Closed(b).utf8Range.end <= |c.text|
    ensures RunInside(c.f, c.fallbackAscent, Closed(b), b.bounds)
  {
  }

  /** Closing the current run at `at`: the stored runs stay well formed, before `at`, and inside the bounds. */
  lemma CloseRunStored(c: Setup, b: Builder)
    requires Valid(c, b) && b.run.glyphs != []
    ensures RunsWf(c.f, c.text, c.shape, b.runs + [Closed(b)])
    ensures forall k :: 0 <= k < |b.runs| + 1 ==> (b.runs + [Closed(b)])[k].utf8Range.end <= b.at
    ensures forall k :: 0 <= k < |b.runs| + 1 ==> RunInside(c.f, c.fallbackAscent, (b.runs + [Closed(b)])[k], b.bounds)
  {
    var closed := Closed(b);
    var runs' := b.runs + [closed];
    ClosedRunWf(c, b);
    RunsWfAppend(c.f, c.text, c.shape, b.runs, closed);
    assert forall k :: 0 <= k < |runs'| ==> runs'[k].utf8Range.end <= b.at;
    assert forall k :: 0 <= k < |runs'| ==> RunInside(c.f, c.fallbackAscent, runs'[k], b.bounds);
  }

  /** Closing the current run commits it to the handler, if any, after everything the handler already has. */
  lemma CloseRunLogged(c: Setup, b: Builder)
    requires Valid(c, b) && b.run.glyphs != []
    ensures var log' := b.log + (if c.hasHandler then [OwnInfo(c.font, Closed(b))] else []);
            (!c.hasHandler ==> log' == []) &&
            (c.hasHandler ==> IsSubsequence(OwnInfos(c.font, b.runs + [Closed(b)]), log')) &&
            (c.Quiet() ==> log' == (if c.hasHandler then OwnInfos(c.font, b.runs + [Closed(b)]) else []))
  {
    var closed := Closed(b);
    var runs' := b.runs + [closed];
    assert OwnInfos(c.font, runs') == OwnInfos(c.font, b.runs) + [OwnInfo(c.font, closed)] by {
      assert runs'[..|b.runs|] == b.runs;
    }
    if c.hasHandler {
      OwnRunsLogged(c.font, b.runs, b.log, [], closed);
    }
  }

  /** `addRun` on a non-empty sprite run: it is stored, committed to the handler, and a new run starts at `at`. */
  lemma ValidCloseRun(c: Setup, b: Builder)
    requires Valid(c, b) && b.run.glyphs != []
    ensures Valid(c, Builder(b.at, Run(None, TextBlob.Utf8Range(b.at, b.at), [], [], []), b.pen,
                             b.runs + [Closed(b)], b.bounds,
                             b.log + (if c.hasHandler then [OwnInfo(c.font, Closed(b))] else [])))
  {
    CloseRunStored(c, b);
    CloseRunLogged(c, b);
  }

  /**
   * A stretch from `at` to `j` shaped with the fallback font: its runs
   * reach the handler through an offset handler, and, when shaping gives
   * a blob, a fallback run at the pen is stored, the text bounds take in
   * the blob where it is drawn, and the pen moves by its width.  The next
   * run starts at `j`.
   */
  ghost function AfterFallback(c: Setup, b: Builder, j: nat): (r: Builder)
    requires b.at <= j <= |c.text|
    ensures r.at == j && r.run == Run(None, TextBlob.Utf8Range(j, j), [], [], [])
  {
    var aligned := Aligned(c.f, b.pen, c.fallbackAscent);
    var shaped := c.shape(c.text[b.at..j]);
    var log := b.log + OffsetHandler(c.hasHandler, b.at, aligned).Forward(shaped.committed);
    var empty := Run(None, TextBlob.Utf8Range(j, j), [], [], []);
    if shaped.blob.None? then Builder(j, empty, b.pen, b.runs, b.bounds, log)
    else
      var sub := shaped.blob.value;
      var stored := Run(shaped.blob, TextBlob.Utf8Range(b.at, j), [], [b.pen], []);
      Builder(j, empty, b.pen.(x := b.pen.x + sub.bounds.w), b.runs + [stored],
              Union(b.bounds, FallbackBox(sub, aligned)), log)
  }

  /** Runs the fallback shaper commits reach the log only when there is a handler, and never when it is quiet. */
  lemma ValidForward(c: Setup, b: Builder, extra: seq<TextBlob.RunInfo>)
    requires Valid(c, b) && (!c.hasHandler ==> extra == []) && (c.Quiet() ==> extra == [])
    ensures Valid(c, b.(log := b.log + extra))
  {
    if c.hasHandler {
      SubsequenceExtend(OwnInfos(c.font, b.runs), b.log, extra);
    }
    assert extra == [] ==> b.log + extra == b.log;
  }

  /** Storing a fallback run for the blob of the stretch `at`..`j`, the pen moving past it. */
  lemma ValidStoreFallback(c: Setup, b: Builder, j: nat, sub: SubBlob)
    requires Valid(c, b) && b.run.glyphs == [] && b.at < j <= |c.text|
    requires c.shape(c.text[b.at..j]).blob == Some(sub)
    ensures var box := FallbackBox(sub, Aligned(c.f, b.pen, c.fallbackAscent));
            Valid(c, Builder(j, Run(None, TextBlob.Utf8Range(j, j), [], [], []), b.pen.(x := b.pen.x + sub.bounds.w),
                             b.runs + [Run(Some(sub), TextBlob.Utf8Range(b.at, j), [], [b.pen], [])],
                             Union(b.bounds, box), b.log))
  {
    var box := FallbackBox(sub, Aligned(c.f, b.pen, c.fallbackAscent));
    var stored := Run(Some(sub), TextBlob.Utf8Range(b.at, j), [], [b.pen], []);
    var runs' := b.runs + [stored];
    var bounds' := Union(b.bounds, box);
    assert OwnInfos(c.font, runs') == OwnInfos(c.font, b.runs) by {
      assert runs'[..|b.runs|] == b.runs;
    }
    assert RunsWf(c.f, c.text, c.shape, runs') by {
      assert FallbackRunWf(c.text, c.shape, stored);
    }
    assert forall k :: 0 <= k < |runs'| ==> RunInside(c.f, c.fallbackAscent, runs'[k], bounds') by {
      RunsInsideUnion(c.f, c.text, c.shape, c.fallbackAscent, b.runs, b.bounds, box);
      UnionWithin(b.bounds, box, box);
      assert RunInside(c.f, c.fallbackAscent, stored, bounds');
    }
  }

  /** An empty run restarted at `j`. */
  lemma ValidRestart(c: Setup, b: Builder, j: nat)
    requires Valid(c, b) && b.run.glyphs == [] && b.at <= j <= |c.text|
    ensures Valid(c, b.(at := j, run := Run(None, TextBlob.Utf8Range(j, j), [], [], [])))
  {
  }

  /** The log after the fallback shaper's committed runs reach it through the offset handler. */
  ghost function Forwarded(c: Setup, b: Builder, j: nat): (r: Builder)
    requires b.at <= j <= |c.text|
    ensures r == b.(log := r.log)
    ensures !c.hasHandler ==> r.log == b.log
  {
    var aligned := Aligned(c.f, b.pen, c.fallbackAscent);
    b.(log := b.log + OffsetHandler(c.hasHandler, b.at, aligned).Forward(c.shape(c.text[b.at..j]).committed))
  }

  lemma ValidForwarded(c: Setup, b: Builder, j: nat)
    requires Valid(c, b) && b.at <= j <= |c.text|
    ensures Valid(c, Forwarded(c, b, j))
  {
    var aligned := Aligned(c.f, b.pen, c.fallbackAscent);
    var shaped := c.shape(c.text[b.at..j]);
    assert c.Quiet() ==> shaped.committed == [];
    ValidForward(c, b, OffsetHandler(c.hasHandler, b.at, aligned).Forward(shaped.committed));
  }

  lemma ValidFallbackStored(c: Setup, b: Builder, j: nat)
    requires b.at < j <= |c.text| && Valid(c, Forwarded(c, b, j)) && b.run.glyphs == []
    requires c.shape(c.text[b.at..j]).blob.Some?
    ensures Valid(c, AfterFallback(c, b, j))
  {
    var b1 := Forwarded(c, b, j);
    var sub := c.shape(c.text[b.at..j]).blob.value;
    ValidStoreFallback(c, b1, j, sub);
    FallbackStoredIs(c, b, j);
  }

  /** With a blob, the fallback branch's builder is the forwarded one with the blob stored. */
  lemma FallbackStoredIs(c: Setup, b: Builder, j: nat)
    requires b.at < j <= |c.text| && c.shape(c.text[b.at..j]).blob.Some?
    ensures var b1 := Forwarded(c, b, j);
            var sub := c.shape(c.text[b.at..j]).blob.value;
            AfterFallback(c, b, j) ==
            Builder(j, Run(None, TextBlob.Utf8Range(j, j), [], [], []), b1.pen.(x := b1.pen.x + sub.bounds.w),
                    b1.runs + [Run(Some(sub), TextBlob.Utf8Range(b1.at, j), [], [b1.pen], [])],
                    Union(b1.bounds, FallbackBox(sub, Aligned(c.f, b1.pen, c.fallbackAscent))), b1.log)
  {
  }

  lemma ValidFallbackEmpty(c: Setup, b: Builder, j: nat)
    requires b.at < j <= |c.text| && Valid(c, Forwarded(c, b, j)) && b.run.glyphs == []
    requires c.shape(c.text[b.at..j]).blob.None?
    ensures Valid(c, AfterFallback(c, b, j))
  {
    var b1 := Forwarded(c, b, j);
    ValidRestart(c, b1, j);
    assert AfterFallback(c, b, j) == b1.(at := j, run := Run(None, TextBlob.Utf8Range(j, j), [], [], []));
  }

  /** Once the committed runs are forwarded, storing the blob, or nothing when there is none, keeps the invariant. */
  lemma ValidAfterForwarded(c: Setup, b: Builder, j: nat)
    requires b.at < j <= |c.text| && Valid(c, Forwarded(c, b, j)) && b.run.glyphs == []
    ensures Valid(c, AfterFallback(c, b, j))
  {
    if c.shape(c.text[b.at..j]).blob.Some? {
      ValidFallbackStored(c, b, j);
    } else {
      ValidFallbackEmpty(c, b, j);
    }
  }

  /** The fallback branch keeps the invariant. */
  lemma ValidFallback(c: Setup, b: Builder, j: nat)
    requires Valid(c, b) && b.run.glyphs == [] && b.at < j <= |c.text|
    ensures Valid(c, AfterFallback(c, b, j))
  {
    ValidForwarded(c, b, j);
    ValidAfterForwarded(c, b, j);
  }

  /** What the loop's state promises once the last run is stored. */
  lemma ValidEnd(c: Setup, b: Builder)
    requires Valid(c, b) && b.run.glyphs == []
    ensures RunsWf(c.f, c.text, c.shape, b.runs)
    ensures forall k :: 0 <= k < |b.runs| ==> RunInside(c.f, c.fallbackAscent, b.runs[k], b.bounds)
    ensures !c.hasHandler ==> b.log == []
    ensures c.hasHandler ==> IsSubsequence(OwnInfos(c.font, b.runs), b.log)
    ensures c.Quiet() ==> b.log == (if c.hasHandler then OwnInfos(c.font, b.runs) else [])
  {
  }

  /** `run.utf8Range.end = i`: the current run reaches the offset of the code point being read. */
  function Marked(b: Builder): Builder
  {
    b.(run := Closed(b))
  }

  /** `if (!run.empty()) addRun();` for the current sprite run: stored, committed to a handler, restarted at `at`. */
  function Flushed(c: Setup, b: Builder): Builder
  {
    if b.run.glyphs == [] then b
    else Builder(b.at, Run(None, TextBlob.Utf8Range(b.at, b.at), [], [], []), b.pen, b.runs + [Closed(b)], b.bounds,
                 b.log + (if c.hasHandler then [OwnInfo(c.font, Closed(b))] else []))
  }

  /**
   * What the `MakeWithShaper` loop ends with when it reaches decoder `d`
   * in state `b`: a code point with a sprite glyph joins the current run;
   * one without closes that run, and the stretch up to `SkipStop` goes to
   * the fallback shaper; the 0 that ends decoding closes the last run.
   */
  ghost function ShapeFrom(c: Setup, d: Utf8.Decoder, b: Builder): Builder
    requires d.Wf() && d.str == c.text && b.at == d.pos
    decreases |c.text| - d.pos
  {
    var (chr, d') := Utf8.Step(d);
    var b1 := Marked(b);
    if chr == 0 then Flushed(c, b1)
    else
      var glyph := CodePointToGlyph(c.f, chr);
      if glyph == 0 then
        var stop := SkipStop(c.f, d');
        ShapeFrom(c, stop, AfterFallback(c, Flushed(c, b1), stop.pos))
      else ShapeFrom(c, d', AfterGlyph(c, b1, glyph, d'.pos))
  }

  /** The loop's state before the first code point: an empty run at offset 0, the pen at the origin. */
  function Start(): Builder
  {
    Builder(0, Run(None, TextBlob.Utf8Range(0, 0), [], [], []), Point(0, 0), [], EmptyRect, [])
  }

  /** The runs, bounds and handler log of `MakeWithShaper` for the whole text. */
  ghost function Shaping(c: Setup): Builder
  {
    ShapeFrom(c, Utf8.Init(c.text), Start())
  }

  /** One pass of the loop: `ShapeFrom` unfolded once. */
  lemma ShapeFromStep(c: Setup, d: Utf8.Decoder, b: Builder)
    requires d.Wf() && d.str == c.text && b.at == d.pos
    ensures var (chr, d') := Utf8.Step(d);
            ShapeFrom(c, d, b) ==
              if chr == 0 then Flushed(c, Marked(b))
              else if CodePointToGlyph(c.f, chr) == 0 then
                ShapeFrom(c, SkipStop(c.f, d'), AfterFallback(c, Flushed(c, Marked(b)), SkipStop(c.f, d').pos))
              else ShapeFrom(c, d', AfterGlyph(c, Marked(b), CodePointToGlyph(c.f, chr), d'.pos))
  {
  }

  /**
   * Without a code point the sprite font lacks, `MakeWithShaper` is
   * `Make` from here on: the run holds the layout of the code points seen
   * so far, and it ends with the blob `Make` builds, the handler (when
   * there is one) hearing of exactly that blob's runs.
   */
  lemma {:induction false} AllSpriteFrom(c: Setup, d: Utf8.Decoder, seen: seq<Utf8.Item>, end: int)
    requires d.Wf() && d.str == c.text
    requires Utf8.Items(Utf8.Init(c.text)) == seen + Utf8.Items(d)
    requires Utf8.StopPos(Utf8.Init(c.text)) == Utf8.StopPos(d)
    requires forall k :: 0 <= k < |Utf8.Items(d)| ==> CodePointToGlyph(c.f, Utf8.Items(d)[k].cp) != 0
    ensures var l := Lay(c.f, seen);
            var r := ShapeFrom(c, d, Builder(d.pos, Run(None, TextBlob.Utf8Range(0, end), l.glyphs, l.positions, l.clusters),
                                             Point(l.pen, 0), [], l.bounds, []));
            var m := MadeBlob(c.f, c.font, c.text);
            r.runs == m.runs && r.bounds == m.bounds && r.log == (if c.hasHandler then Visits(c.font, m.runs) else [])
    decreases |c.text| - d.pos
  {
    var l := Lay(c.f, seen);
    var b := Builder(d.pos, Run(None, TextBlob.Utf8Range(0, end), l.glyphs, l.positions, l.clusters), Point(l.pen, 0), [], l.bounds, []);
    ShapeFromStep(c, d, b);
    Utf8.ItemsAdvance(c.text, seen, d);
    var (chr, d') := Utf8.Step(d);
    if chr == 0 {
      MadeBlobOf(c.f, c.font, c.text, seen, l, d.pos);
    } else {
      Utf8.ItemsUnfold(d);
      assert Utf8.Items(d)[0].cp == chr;
      var glyph := CodePointToGlyph(c.f, chr);
      var item := Utf8.Item(d.pos, chr);
      LayStep(c.f, seen, item);
      var l' := Lay(c.f, seen + [item]);
      assert AfterGlyph(c, Marked(b), glyph, d'.pos) ==
             Builder(d'.pos, Run(None, TextBlob.Utf8Range(0, d.pos), l'.glyphs, l'.positions, l'.clusters),
                     Point(l'.pen, 0), [], l'.bounds, []);
      assert Utf8.Items(d') == Utf8.Items(d)[1..];
      AllSpriteFrom(c, d', seen + [item], d.pos);
    }
  }

  /**
   * When the sprite font has a glyph for every code point decoded,
   * `MakeWithShaper` builds the same blob as `Make`, never calls the
   * fallback shaper, and the handler (when there is one) hears of exactly
   * the runs `visitRuns` reports.
   */
  lemma ShaperAgreesWithMake(c: Setup)
    requires forall k :: 0 <= k < |Utf8.Items(Utf8.Init(c.text))| ==>
               CodePointToGlyph(c.f, Utf8.Items(Utf8.Init(c.text))[k].cp) != 0
    ensures var m := MadeBlob(c.f, c.font, c.text);
            Shaping(c).runs == m.runs && Shaping(c).bounds == m.bounds &&
            Shaping(c).log == (if c.hasHandler then Visits(c.font, m.runs) else [])
  {
    assert [] + Utf8.Items(Utf8.Init(c.text)) == Utf8.Items(Utf8.Init(c.text));
    AllSpriteFrom(c, Utf8.Init(c.text), [], 0);
  }

  /**
   * The `addRun` lambda: an own run is committed to the handler (when
   * there is one) with the sprite font; every run is stored and then
   * cleared, the next one starting where it ended.
   */
  method AddRun(run: RunBuffer, font: nat, hasHandler: bool, runs: seq<Run>, log: seq<TextBlob.RunInfo>)
    returns (runs': seq<Run>, log': seq<TextBlob.RunInfo>)
    modifies run
    ensures runs' == runs + [old(run.Value())]
    ensures log' == log + (if hasHandler && old(run.subBlob).None? then [OwnInfo(font, old(run.Value()))] else [])
    ensures run.subBlob == None && run.utf8Range == TextBlob.Utf8Range(old(run.utf8Range.end), old(run.utf8Range.end))
    ensures run.glyphs == [] && run.positions == [] && run.clusters == []
  {
    log' := log;
    if hasHandler && run.subBlob.None? {
      log' := log' + [OwnInfo(font, run.Value())];
    }
    runs' := runs + [run.Value()];
    run.Clear();
  }

  /**
   * The decoder after a stretch of code points the sprite font lacks,
   * starting at `d`: before the first code point with a glyph, or just
   * after the call of `next()` that returned 0.
   */
  function SkipStop(f: Font, d: Utf8.Decoder): (stop: Utf8.Decoder)
    requires d.Wf()
    ensures stop.Wf() && stop.str == d.str && d.pos <= stop.pos
    decreases |d.str| - d.pos
  {
    var (chr, d') := Utf8.Step(d);
    if chr == 0 then d'
    else if CodePointToGlyph(f, chr) != 0 then d
    else SkipStop(f, d')
  }

  /** The index of the first decoded code point with a sprite glyph, or the number of them when none has one. */
  function FirstGlyph(f: Font, items: seq<Utf8.Item>): (k: nat)
    ensures k <= |items|
    ensures forall l :: 0 <= l < k ==> CodePointToGlyph(f, items[l].cp) == 0
    ensures k < |items| ==> CodePointToGlyph(f, items[k].cp) != 0
  {
    if items == [] then 0
    else if CodePointToGlyph(f, items[0].cp) != 0 then 0
    else 1 + FirstGlyph(f, items[1..])
  }

  /**
   * Where a stretch from `d` ends, in terms of the code points a decode
   * loop sees from there: when one of them has a glyph, the decoder as it
   * stands before the first such one; otherwise the decoder after the
   * call of `next()` that ends the loop.
   */
  function StretchEnd(f: Font, d: Utf8.Decoder): Utf8.Decoder
    requires d.Wf()
  {
    var items := Utf8.Items(d);
    var k := FirstGlyph(f, items);
    if k < |items| then Utf8.StepN(d, k) else Utf8.StepN(d, k + 1)
  }

  /** The inner loop of the fallback branch stops where `StretchEnd` says. */
  lemma {:induction false} SkipStopSpec(f: Font, d: Utf8.Decoder)
    requires d.Wf()
    ensures SkipStop(f, d) == StretchEnd(f, d)
    decreases |d.str| - d.pos
  {
    var (chr, d') := Utf8.Step(d);
    if chr == 0 {
      StretchEndAtZero(f, d);
    } else if CodePointToGlyph(f, chr) != 0 {
      StretchEndAtGlyph(f, d);
    } else {
      SkipStopSpec(f, d');
      StretchEndPast(f, d);
    }
  }

  lemma StretchEndAtZero(f: Font, d: Utf8.Decoder)
    requires d.Wf() && Utf8.Step(d).0 == 0
    ensures SkipStop(f, d) == StretchEnd(f, d) == Utf8.Step(d).1
  {
    Utf8.ItemsUnfold(d);
    assert Utf8.StepN(d, 1) == Utf8.StepN(Utf8.Step(d).1, 0);
  }

  lemma StretchEndAtGlyph(f: Font, d: Utf8.Decoder)
    requires d.Wf() && Utf8.Step(d).0 != 0 && CodePointToGlyph(f, Utf8.Step(d).0) != 0
    ensures SkipStop(f, d) == StretchEnd(f, d) == d
  {
    Utf8.ItemsUnfold(d);
    assert Utf8.Items(d)[0].cp == Utf8.Step(d).0;
  }

  lemma StretchEndPast(f: Font, d: Utf8.Decoder)
    requires d.Wf() && Utf8.Step(d).0 != 0 && CodePointToGlyph(f, Utf8.Step(d).0) == 0
    requires SkipStop(f, Utf8.Step(d).1) == StretchEnd(f, Utf8.Step(d).1)
    ensures SkipStop(f, d) == StretchEnd(f, d)
  {
    SkipStopPast(f, d);
    StretchEndShift(f, d);
  }

  /** A code point without a glyph does not end the inner loop. */
  lemma SkipStopPast(f: Font, d: Utf8.Decoder)
    requires d.Wf() && Utf8.Step(d).0 != 0 && CodePointToGlyph(f, Utf8.Step(d).0) == 0
    ensures SkipStop(f, d) == SkipStop(f, Utf8.Step(d).1)
  {
  }

  /** Nor does it move where the stretch ends. */
  lemma StretchEndShift(f: Font, d: Utf8.Decoder)
    requires d.Wf() && Utf8.Step(d).0 != 0 && CodePointToGlyph(f, Utf8.Step(d).0) == 0
    ensures StretchEnd(f, d) == StretchEnd(f, Utf8.Step(d).1)
  {
    var d' := Utf8.Step(d).1;
    var n', k' := |Utf8.Items(d')|, FirstGlyph(f, Utf8.Items(d'));
    FirstGlyphPast(f, d);
    StretchEndAt(f, d, n' + 1, k' + 1);
    StretchEndAt(f, d', n', k');
    if k' < n' {
      Utf8.StepNCons(d, k');
    } else {
      Utf8.StepNCons(d, k' + 1);
    }
  }

  /** `StretchEnd` in terms of how many code points are ahead and which is the first with a glyph. */
  lemma StretchEndAt(f: Font, d: Utf8.Decoder, n: nat, k: nat)
    requires d.Wf() && n == |Utf8.Items(d)| && k == FirstGlyph(f, Utf8.Items(d))
    ensures StretchEnd(f, d) == if k < n then Utf8.StepN(d, k) else Utf8.StepN(d, k + 1)
  {
  }

  /** Past a code point without a glyph, the first one with a glyph is one further on. */
  lemma FirstGlyphPast(f: Font, d: Utf8.Decoder)
    requires d.Wf() && Utf8.Step(d).0 != 0 && CodePointToGlyph(f, Utf8.Step(d).0) == 0
    ensures |Utf8.Items(d)| == 1 + |Utf8.Items(Utf8.Step(d).1)|
    ensures FirstGlyph(f, Utf8.Items(d)) == 1 + FirstGlyph(f, Utf8.Items(Utf8.Step(d).1))
  {
    Utf8.ItemsUnfold(d);
    var items := Utf8.Items(d);
    assert items[1..] == Utf8.Items(Utf8.Step(d).1) && items[0].cp == Utf8.Step(d).0;
  }

  /** The inner `while (true)` loop of the fallback branch, from a copy of the decoder. */
  method SkipFallback(f: Font, decode: Utf8.Decoder) returns (stop: Utf8.Decoder)
    requires decode.Wf()
    ensures stop == SkipStop(f, decode)
  {
    var subDecode := decode;
    while true
      invariant subDecode.Wf() && subDecode.str == decode.str && decode.pos <= subDecode.pos
      invariant SkipStop(f, decode) == SkipStop(f, subDecode)
      decreases |decode.str| - subDecode.pos
    {
      var prevSubDecode := subDecode;
      var subChr;
      subChr, subDecode := Utf8.Next(subDecode);
      if subChr == 0 {
        return subDecode;
      }
      if CodePointToGlyph(f, subChr) != 0 {
        return prevSubDecode;
      }
    }
  }

  /**
   * The loop body for a code point the sprite font lacks, found at `i`:
   * the current run, if it has glyphs, is stored; the stretch of code
   * points without a glyph is skipped and shaped with the fallback font.
   */
  method Fallback(c: Setup, run: RunBuffer, i: nat, decode: Utf8.Decoder, pos: Point, runs: seq<Run>,
                  textBounds: Rect, log: seq<TextBlob.RunInfo>)
    returns (decode': Utf8.Decoder, pos': Point, runs': seq<Run>, textBounds': Rect, log': seq<TextBlob.RunInfo>)
    requires Valid(c, Builder(i, run.Value(), pos, runs, textBounds, log)) && run.utf8Range.end == i
    requires decode.Wf() && decode.str == c.text && i < decode.pos
    modifies run
    ensures decode'.Wf() && decode'.str == c.text && decode.pos <= decode'.pos
    ensures Valid(c, Builder(decode'.pos, run.Value(), pos', runs', textBounds', log'))
    ensures decode' == SkipStop(c.f, decode)
    ensures Builder(decode'.pos, run.Value(), pos', runs', textBounds', log') ==
            AfterFallback(c, Flushed(c, Builder(i, old(run.Value()), pos, runs, textBounds, log)), decode'.pos)
  {
    runs', log' := runs, log;
    if !run.Empty() {
      runs', log' := CloseRun(c, run, i, pos, runs', textBounds, log');
    }
    decode' := SkipFallback(c.f, decode);
    ValidFallback(c, Builder(i, run.Value(), pos, runs', textBounds, log'), decode'.pos);
    pos', runs', textBounds', log' := ShapeFallback(c, run, i, decode'.pos, pos, runs', textBounds, log');
  }

  /**
   * The fallback branch of the `MakeWithShaper` loop, for the stretch from
   * `i` to `j`: the run takes the stretch's range, the fallback shaper
   * reports through an offset handler at the aligned origin, and a blob it
   * returns is stored as a fallback run at the pen, which moves past it.
   */
  method ShapeFallback(c: Setup, run: RunBuffer, i: nat, j: nat, pos: Point, runs: seq<Run>,
                       textBounds: Rect, log: seq<TextBlob.RunInfo>)
    returns (pos': Point, runs': seq<Run>, textBounds': Rect, log': seq<TextBlob.RunInfo>)
    requires i < j <= |c.text|
    requires run.Empty() && run.positions == [] && run.clusters == []
    modifies run
    ensures AfterFallback(c, Builder(i, old(run.Value()), pos, runs, textBounds, log), j) ==
            Builder(j, run.Value(), pos', runs', textBounds', log')
  {
    ghost var before := Builder(i, run.Value(), pos, runs, textBounds, log);
    pos', runs', textBounds', log' := pos, runs, textBounds, log;
    run.utf8Range := TextBlob.Utf8Range(i, j);
    var aligned := Aligned(c.f, pos', c.fallbackAscent);
    var subHandler := OffsetHandler(c.hasHandler, i, aligned);
    var shaped := c.shape(c.text[i..j]);
    log' := log' + subHandler.Forward(shaped.committed);
    run.subBlob := shaped.blob;
    if run.subBlob.Some? {
      run.positions := run.positions + [pos'];
      textBounds' := Union(textBounds', FallbackBox(run.subBlob.value, aligned));
      pos' := pos'.(x := pos'.x + run.subBlob.value.bounds.w);
      assert run.Value() == Run(shaped.blob, TextBlob.Utf8Range(i, j), [], [pos], []);
      runs', log' := AddRun(run, c.font, c.hasHandler, runs', log');
      assert runs' == runs + [Run(shaped.blob, TextBlob.Utf8Range(i, j), [], [pos], [])];
      assert AfterFallback(c, before, j).runs == runs';
      assert AfterFallback(c, before, j).log == log';
      assert AfterFallback(c, before, j).pen == pos';
      assert AfterFallback(c, before, j).bounds == textBounds';
    }
    run.utf8Range := run.utf8Range.(begin := j);
    assert run.Value() == Run(None, TextBlob.Utf8Range(j, j), [], [], []);
    assert AfterFallback(c, before, j) == Builder(j, run.Value(), pos', runs', textBounds', log');
  }

  /** `run.utf8Range.end = i`: the current run reaches the code point just read. */
  method MarkEnd(c: Setup, run: RunBuffer, at: nat, pos: Point, runs: seq<Run>, textBounds: Rect,
                 log: seq<TextBlob.RunInfo>)
    requires Valid(c, Builder(at, run.Value(), pos, runs, textBounds, log))
    modifies run
    ensures Valid(c, Builder(at, run.Value(), pos, runs, textBounds, log))
    ensures run.utf8Range == TextBlob.Utf8Range(old(run.utf8Range.begin), at)
    ensures run.subBlob == old(run.subBlob) && run.glyphs == old(run.glyphs)
    ensures run.positions == old(run.positions) && run.clusters == old(run.clusters)
  {
    ghost var b := Builder(at, run.Value(), pos, runs, textBounds, log);
    ValidMarkEnd(c, b, at);
    run.utf8Range := run.utf8Range.(end := at);
    assert b.(run := b.run.(utf8Range := TextBlob.Utf8Range(b.run.utf8Range.begin, at))) ==
           Builder(at, run.Value(), pos, runs, textBounds, log);
  }

  /**
   * A sprite glyph read at `i`: `run.add` with the pen and the cluster
   * relative to the run's start, the text bounds taking in the glyph's box
   * at the pen, the pen moving by the box's width.
   */
  method AddGlyph(c: Setup, run: RunBuffer, i: nat, glyph: nat, at: nat, pos: Point, runs: seq<Run>,
                  textBounds: Rect, log: seq<TextBlob.RunInfo>)
    returns (pos': Point, textBounds': Rect)
    requires Valid(c, Builder(i, run.Value(), pos, runs, textBounds, log))
    requires i < at <= |c.text| && DrawableGlyph(c.f, glyph)
    modifies run
    ensures Valid(c, Builder(at, run.Value(), pos', runs, textBounds', log))
    ensures Builder(at, run.Value(), pos', runs, textBounds', log) ==
            AfterGlyph(c, Builder(i, old(run.Value()), pos, runs, textBounds, log), glyph, at)
  {
    ghost var b := Builder(i, run.Value(), pos, runs, textBounds, log);
    ValidAddGlyph(c, b, glyph, at);
    run.Add(glyph, pos, i - run.utf8Range.begin);
    var glyphBounds := GetGlyphBounds(c.f, glyph);
    glyphBounds := glyphBounds.Offset(pos.x, pos.y);
    textBounds' := Union(textBounds, glyphBounds);
    pos' := pos.(x := pos.x + glyphBounds.w);
    assert Builder(at, run.Value(), pos', runs, textBounds', log) == AfterGlyph(c, b, glyph, at);
  }

  /** `addRun` at a code point without a glyph: the sprite run so far is stored and the next one starts at `at`. */
  method CloseRun(c: Setup, run: RunBuffer, at: nat, pos: Point, runs: seq<Run>, textBounds: Rect,
                  log: seq<TextBlob.RunInfo>)
    returns (runs': seq<Run>, log': seq<TextBlob.RunInfo>)
    requires Valid(c, Builder(at, run.Value(), pos, runs, textBounds, log)) && run.utf8Range.end == at && !run.Empty()
    modifies run
    ensures Valid(c, Builder(at, run.Value(), pos, runs', textBounds, log')) && run.Empty()
    ensures runs' == runs + [old(run.Value())] && run.utf8Range.end == at
    ensures log' == log + (if c.hasHandler then [OwnInfo(c.font, old(run.Value()))] else [])
    ensures run.Value() == Run(None, TextBlob.Utf8Range(at, at), [], [], [])
  {
    ghost var b := Builder(at, run.Value(), pos, runs, textBounds, log);
    ValidCloseRun(c, b);
    assert Closed(b) == b.run;
    runs', log' := AddRun(run, c.font, c.hasHandler, runs, log);
  }

  /**
   * SpriteTextBlob::MakeWithShaper.  Sprite glyphs go into runs as in
   * `Make`; at a code point without a glyph, the current run is closed and
   * the stretch up to the next code point with a glyph (or the end of the
   * decoding) is shaped with the fallback font, its runs passed on through
   * an offset handler.  The text bounds take in the fallback blob where it
   * is drawn.
   */
  method MakeWithShaper(f: Font, font: nat, text: seq<Utf8.byte>, hasHandler: bool,
                        shape: seq<Utf8.byte> -> Shaped, fallbackAscent: int)
    returns (blob: Blob, log: seq<TextBlob.RunInfo>)
    ensures var r := Shaping(Setup(f, text, shape, fallbackAscent, font, hasHandler));
            blob == Blob(r.bounds, font, r.runs) && log == r.log
    ensures RunsWf(f, text, shape, blob.runs)
    ensures forall k :: 0 <= k < |blob.runs| ==> RunInside(f, fallbackAscent, blob.runs[k], blob.bounds)
    ensures !hasHandler ==> log == []
    ensures hasHandler ==> IsSubsequence(OwnInfos(font, blob.runs), log)
    ensures (forall s :: shape(s).committed == []) ==> log == (if hasHandler then OwnInfos(font, blob.runs) else [])
  {
    var c := Setup(f, text, shape, fallbackAscent, font, hasHandler);
    var runs: seq<Run> := [];
    log := [];
    var run := new RunBuffer();
    var textBounds := EmptyRect;
    var pos := Point(0, 0);
    var decode := Utf8.Init(text);
    ValidStart(c);
    while true
      invariant decode.Wf() && decode.str == text
      invariant Valid(c, Builder(decode.pos, run.Value(), pos, runs, textBounds, log))
      invariant Shaping(c) == ShapeFrom(c, decode, Builder(decode.pos, run.Value(), pos, runs, textBounds, log))
      decreases |text| - decode.pos
    {
      var i := decode.pos;
      ghost var b := Builder(i, run.Value(), pos, runs, textBounds, log);
      ShapeFromStep(c, decode, b);
      var chr;
      chr, decode := Utf8.Next(decode);
      MarkEnd(c, run, i, pos, runs, textBounds, log);
      assert Marked(b) == Builder(i, run.Value(), pos, runs, textBounds, log);
      if chr == 0 {
        assert Shaping(c) == Flushed(c, Builder(run.utf8Range.end, run.Value(), pos, runs, textBounds, log));
        break;
      }
      var glyph := CodePointToGlyph(f, chr);
      if glyph == 0 {
        decode, pos, runs, textBounds, log := Fallback(c, run, i, decode, pos, runs, textBounds, log);
        continue;
      }
      var glyphBounds := GetGlyphBounds(f, glyph);
      if glyphBounds.IsEmpty() {
        // codePointToGlyph gives a glyph only when its box is not empty
        assert false;
        continue;
      }
      pos, textBounds := AddGlyph(c, run, i, glyph, decode.pos, pos, runs, textBounds, log);
    }
    if !run.Empty() {
      runs, log := CloseRun(c, run, run.utf8Range.end, pos, runs, textBounds, log);
    }
    ValidEnd(c, Builder(run.utf8Range.end, run.Value(), pos, runs, textBounds, log));
    blob := Blob(textBounds, font, runs);
  }
}
