/**
 * ft/hb_shaper.h: HBShaper, which splits a string into runs of one script,
 * shapes each run, and then walks the shaped glyphs.
 *
 * HarfBuzz is not part of this model: the script HarfBuzz guesses for a
 * code point is the parameter `scriptOf` (0 when it guesses none), and
 * shaping a run is the parameter `shape`, which gives the glyphs of a
 * segment.  A glyph's info (glyph index, cluster) and its position
 * (advances and offsets), kept by the source in two parallel vectors that
 * are always resized together, are one `ShapedGlyph` here.
 */
module HbShaper {
  import Utf8

  /** HB_SCRIPT_UNKNOWN, the tag 'Zzzz'. */
  const ScriptUnknown: nat := 0x5A7A_7A7A

  /** glyph_t is 16 bits wide. */
  const GlyphLimit: nat := 0x1_0000

  /** A code point put in a HarfBuzz buffer, with its cluster: the byte offset where it starts. */
  datatype BufItem = BufItem(cp: int, cluster: int)

  /** A buffer handed to `addBuffer`: its script and its code points. */
  datatype Segment = Segment(script: nat, items: seq<BufItem>)

  /** A shaped glyph: hb_glyph_info_t (glyph index, cluster) and hb_glyph_position_t (in 26.6 fixed point). */
  datatype ShapedGlyph = ShapedGlyph(glyph: nat, cluster: int, xAdvance: int, yAdvance: int, xOffset: int, yOffset: int)

  /** The code points of a buffer. */
  function CodePointsOf(items: seq<BufItem>): (r: seq<int>)
    ensures |r| == |items| && forall k :: 0 <= k < |items| ==> r[k] == items[k].cp
  {
    seq(|items|, k requires 0 <= k < |items| => items[k].cp)
  }

  /** What the decode loop puts in buffers: each code point with its byte offset as cluster. */
  function BufItems(items: seq<Utf8.Item>): (r: seq<BufItem>)
    ensures |r| == |items| && forall k :: 0 <= k < |items| ==> r[k] == BufItem(items[k].cp, items[k].offset)
  {
    if items == [] then [] else [BufItem(items[0].cp, items[0].offset)] + BufItems(items[1..])
  }

  /**
   * The constructor's loop over the code points `items` still to read,
   * with the buffer `cur` being filled: a code point whose guessed script
   * is not 0 and differs from the current one closes the buffer and starts
   * one of the new script; every code point joins the current buffer.
   * The last buffer is closed at the end.
   */
  function Segments(items: seq<Utf8.Item>, scriptOf: int -> nat, cur: Segment): (r: seq<Segment>)
    ensures |r| >= 1 && r[0].script == cur.script
    decreases |items|
  {
    if items == [] then [cur]
    else
      var s := scriptOf(items[0].cp);
      var bi := BufItem(items[0].cp, items[0].offset);
      if s != 0 && cur.script != s then [cur] + Segments(items[1..], scriptOf, Segment(s, [bi]))
      else Segments(items[1..], scriptOf, cur.(items := cur.items + [bi]))
  }

  /** One code point of the constructor's loop. */
  lemma SegmentsStep(item: Utf8.Item, rest: seq<Utf8.Item>, scriptOf: int -> nat, cur: Segment)
    ensures var s := scriptOf(item.cp);
            var bi := BufItem(item.cp, item.offset);
            Segments([item] + rest, scriptOf, cur) ==
            if s != 0 && cur.script != s then [cur] + Segments(rest, scriptOf, Segment(s, [bi]))
            else Segments(rest, scriptOf, cur.(items := cur.items + [bi]))
  {
    assert ([item] + rest)[1..] == rest;
  }

  /** The buffers of a segmentation, one after the other. */
  function Flatten(segs: seq<Segment>): (r: seq<BufItem>)
  {
    if segs == [] then [] else Flatten(segs[..|segs| - 1]) + segs[|segs| - 1].items
  }

  lemma {:induction false} FlattenAppend(a: seq<Segment>, b: seq<Segment>)
    ensures Flatten(a + b) == Flatten(a) + Flatten(b)
    decreases |b|
  {
    if b == [] {
      assert a + b == a;
    } else {
      var b' := b[..|b| - 1];
      assert (a + b)[..|a + b| - 1] == a + b';
      FlattenAppend(a, b');
    }
  }

  /**
   * Segmentation loses and reorders nothing: the buffers, one after the
   * other, hold every code point in order, each with its byte offset.
   */
  lemma {:induction false} SegmentsKeepText(items: seq<Utf8.Item>, scriptOf: int -> nat, cur: Segment)
    ensures Flatten(Segments(items, scriptOf, cur)) == cur.items + BufItems(items)
    decreases |items|
  {
    if items == [] {
      assert Flatten([cur]) == Flatten([]) + cur.items;
      assert cur.items + [] == cur.items;
    } else {
      var s := scriptOf(items[0].cp);
      var bi := BufItem(items[0].cp, items[0].offset);
      if s != 0 && cur.script != s {
        SegmentsKeepText(items[1..], scriptOf, Segment(s, [bi]));
        KeepTextOnChange(items, scriptOf, cur);
      } else {
        SegmentsKeepText(items[1..], scriptOf, cur.(items := cur.items + [bi]));
        KeepTextOnJoin(items, scriptOf, cur);
      }
    }
  }

  lemma KeepTextOnChange(items: seq<Utf8.Item>, scriptOf: int -> nat, cur: Segment)
    requires items != [] && scriptOf(items[0].cp) != 0 && cur.script != scriptOf(items[0].cp)
    requires var bi := BufItem(items[0].cp, items[0].offset);
             Flatten(Segments(items[1..], scriptOf, Segment(scriptOf(items[0].cp), [bi]))) == [bi] + BufItems(items[1..])
    ensures Flatten(Segments(items, scriptOf, cur)) == cur.items + BufItems(items)
  {
    var bi := BufItem(items[0].cp, items[0].offset);
    var tail := Segments(items[1..], scriptOf, Segment(scriptOf(items[0].cp), [bi]));
    FlattenAppend([cur], tail);
    FlattenOne(cur);
  }

  lemma FlattenOne(seg: Segment)
    ensures Flatten([seg]) == seg.items
  {
    assert Flatten([seg]) == Flatten([]) + seg.items;
  }

  lemma KeepTextOnJoin(items: seq<Utf8.Item>, scriptOf: int -> nat, cur: Segment)
    requires items != [] && !(scriptOf(items[0].cp) != 0 && cur.script != scriptOf(items[0].cp))
    requires var bi := BufItem(items[0].cp, items[0].offset);
             Flatten(Segments(items[1..], scriptOf, cur.(items := cur.items + [bi]))) == (cur.items + [bi]) + BufItems(items[1..])
    ensures Flatten(Segments(items, scriptOf, cur)) == cur.items + BufItems(items)
  {
    var bi := BufItem(items[0].cp, items[0].offset);
    Utf8.ConcatAssoc(cur.items, [bi], BufItems(items[1..]));
  }

  /**
   * A new buffer starts only on a script change: each buffer after the
   * first has a script that is not 0 and differs from the one before, and
   * starts with the code point whose guessed script it is.
   */
  lemma {:induction false} SegmentsChangeScript(items: seq<Utf8.Item>, scriptOf: int -> nat, cur: Segment)
    ensures var r := Segments(items, scriptOf, cur);
            forall k :: 0 < k < |r| ==>
              r[k].script != 0 && r[k].script != r[k - 1].script &&
              r[k].items != [] && scriptOf(r[k].items[0].cp) == r[k].script
    decreases |items|
  {
    if items != [] {
      var s := scriptOf(items[0].cp);
      var bi := BufItem(items[0].cp, items[0].offset);
      if s != 0 && cur.script != s {
        var tail := Segments(items[1..], scriptOf, Segment(s, [bi]));
        SegmentsChangeScript(items[1..], scriptOf, Segment(s, [bi]));
        SegmentsFirst(items[1..], scriptOf, Segment(s, [bi]));
        var r := Segments(items, scriptOf, cur);
        assert r == [cur] + tail;
        forall k | 0 < k < |r|
          ensures r[k].script != 0 && r[k].script != r[k - 1].script &&
                  r[k].items != [] && scriptOf(r[k].items[0].cp) == r[k].script
        {
          assert r[k] == tail[k - 1];
          if k == 1 {
            assert tail[0].items[0] == bi;
          } else {
            assert r[k - 1] == tail[k - 2];
          }
        }
      } else {
        var cur' := cur.(items := cur.items + [bi]);
        SegmentsChangeScript(items[1..], scriptOf, cur');
        assert Segments(items, scriptOf, cur) == Segments(items[1..], scriptOf, cur');
      }
    }
  }

  /** The first buffer of a segmentation starts with the buffer being filled. */
  lemma {:induction false} SegmentsFirst(items: seq<Utf8.Item>, scriptOf: int -> nat, cur: Segment)
    ensures |Segments(items, scriptOf, cur)[0].items| >= |cur.items|
    ensures forall k :: 0 <= k < |cur.items| ==> Segments(items, scriptOf, cur)[0].items[k] == cur.items[k]
    decreases |items|
  {
    if items != [] {
      var s := scriptOf(items[0].cp);
      var bi := BufItem(items[0].cp, items[0].offset);
      if !(s != 0 && cur.script != s) {
        SegmentsFirst(items[1..], scriptOf, cur.(items := cur.items + [bi]));
      }
    }
  }

  /** The code points of the non-empty buffers, in order: what `m_codePoints` ends with. */
  function AllCodePoints(segs: seq<Segment>): (r: seq<int>)
  {
    if segs == [] then [] else AllCodePoints(segs[..|segs| - 1]) + CodePointsOf(segs[|segs| - 1].items)
  }

  /** The glyphs of the non-empty buffers, shaped one buffer at a time, in order. */
  function AllGlyphs(segs: seq<Segment>, shape: Segment -> seq<ShapedGlyph>): (r: seq<ShapedGlyph>)
  {
    if segs == [] then []
    else
      var last := segs[|segs| - 1];
      AllGlyphs(segs[..|segs| - 1], shape) + (if last.items == [] then [] else shape(last))
  }

  /** `m_codePoints` holds the code points of the text, in order: those the decode loop read. */
  lemma {:induction false} AllCodePointsFlatten(segs: seq<Segment>)
    ensures AllCodePoints(segs) == CodePointsOf(Flatten(segs))
    decreases |segs|
  {
    if segs != [] {
      AllCodePointsFlatten(segs[..|segs| - 1]);
    }
  }

  /** Closing one more buffer appends its code points and, when it is not empty, its glyphs. */
  lemma AllAppend(done: seq<Segment>, seg: Segment, shape: Segment -> seq<ShapedGlyph>)
    ensures AllCodePoints(done + [seg]) == AllCodePoints(done) + CodePointsOf(seg.items)
    ensures AllGlyphs(done + [seg], shape) == AllGlyphs(done, shape) + (if seg.items == [] then [] else shape(seg))
  {
    assert (done + [seg])[..|done|] == done;
  }

  /** When shaping never makes more glyphs than a buffer has code points, every glyph index has a code point. */
  lemma {:induction false} GlyphsWithinCodePoints(segs: seq<Segment>, shape: Segment -> seq<ShapedGlyph>)
    requires forall s :: |shape(s)| <= |s.items|
    ensures |AllGlyphs(segs, shape)| <= |AllCodePoints(segs)|
    decreases |segs|
  {
    if segs != [] {
      GlyphsWithinCodePoints(segs[..|segs| - 1], shape);
    }
  }

  /** HBShaper: the code points and shaped glyphs of all buffers, and the cursor `m_index` over the glyphs. */
  class HBShaper {
    var codePoints: seq<int>
    var glyphs: seq<ShapedGlyph>
    var glyphCount: int
    var index: int
    const shape: Segment -> seq<ShapedGlyph>

    /** `m_glyphCount` counts the glyph vectors' entries; the cursor starts before the first glyph and only moves on. */
    ghost predicate Valid()
      reads this
    {
      glyphCount == |glyphs| && index >= -1
    }

    /**
     * The constructor: an empty string makes no buffer; otherwise the
     * string's code points, up to the first 0 from `next()`, are split by
     * script and each non-empty buffer is shaped, in order.
     */
    constructor (str: seq<Utf8.byte>, scriptOf: int -> nat, shape: Segment -> seq<ShapedGlyph>)
      ensures Valid() && index == -1 && this.shape == shape
      ensures |str| == 0 ==> codePoints == [] && glyphs == []
      ensures |str| > 0 ==>
                var segs := Segments(Utf8.Items(Utf8.Init(str)), scriptOf, Segment(ScriptUnknown, []));
                codePoints == AllCodePoints(segs) && glyphs == AllGlyphs(segs, shape)
    {
      this.shape := shape;
      codePoints := [];
      glyphs := [];
      glyphCount := 0;
      index := -1;
      new;
      var decode := Utf8.Init(str);
      if decode.IsEnd() {
        return;
      }
      var script := ScriptUnknown;
      var buf: seq<BufItem> := [];
      ghost var done: seq<Segment> := [];
      while true
        invariant decode.Wf() && decode.str == str && Valid() && index == -1 && this.shape == shape
        invariant Segments(Utf8.Items(Utf8.Init(str)), scriptOf, Segment(ScriptUnknown, [])) ==
                  done + Segments(Utf8.Items(decode), scriptOf, Segment(script, buf))
        invariant codePoints == AllCodePoints(done) && glyphs == AllGlyphs(done, shape)
        decreases |str| - decode.pos
      {
        Utf8.ItemsUnfold(decode);
        var pos := decode.pos;
        var chr;
        chr, decode := Utf8.Next(decode);
        if chr == 0 {
          break;
        }
        ghost var rest := Utf8.Items(decode);
        SegmentsStep(Utf8.Item(pos, chr), rest, scriptOf, Segment(script, buf));
        var newScript := scriptOf(chr);
        if newScript != 0 && script != newScript {
          AddBuffer(Segment(script, buf));
          AllAppend(done, Segment(script, buf), shape);
          Utf8.ConcatAssoc(done, [Segment(script, buf)], Segments(rest, scriptOf, Segment(newScript, [BufItem(chr, pos)])));
          done := done + [Segment(script, buf)];
          script := newScript;
          buf := [BufItem(chr, pos)];
        } else {
          buf := buf + [BufItem(chr, pos)];
        }
      }
      AddBuffer(Segment(script, buf));
      AllAppend(done, Segment(script, buf), shape);
      done := done + [Segment(script, buf)];
    }

    /**
     * addBuffer: an empty buffer changes nothing; otherwise its code points
     * are appended to `m_codePoints` and its shaped glyphs to the glyph
     * vectors, and `m_glyphCount` grows by their number.
     */
    method AddBuffer(seg: Segment)
      requires Valid()
      modifies this
      ensures Valid() && index == old(index)
      ensures seg.items == [] ==> codePoints == old(codePoints) && glyphs == old(glyphs)
      ensures seg.items != [] ==>
                codePoints == old(codePoints) + CodePointsOf(seg.items) &&
                glyphs == old(glyphs) + shape(seg) && glyphCount == old(glyphCount) + |shape(seg)|
    {
      if |seg.items| == 0 {
        return;
      }
      var added: seq<int> := [];
      for i := 0 to |seg.items|
        invariant |added| == i && forall k :: 0 <= k < i ==> added[k] == seg.items[k].cp
      {
        added := added + [seg.items[i].cp];
      }
      codePoints := codePoints + added;
      var shaped := shape(seg);
      glyphCount := glyphCount + |shaped|;
      glyphs := glyphs + shaped;
    }

    /** next(): moves to the next glyph and returns its code point, or 0 past the last glyph. */
    method Next() returns (cp: int)
      requires Valid() && (index + 1 < glyphCount ==> index + 1 < |codePoints|)
      modifies this
      ensures Valid() && index == old(index) + 1
      ensures codePoints == old(codePoints) && glyphs == old(glyphs) && glyphCount == old(glyphCount)
      ensures cp == (if index < glyphCount then codePoints[index] else 0)
    {
      index := index + 1;
      if index < glyphCount {
        return codePoints[index];
      }
      return 0;
    }

    /** unicodeChar(): the code point at the cursor, 0 when the cursor is outside the code points. */
    function UnicodeChar(): (cp: int)
      reads this
      ensures 0 <= index < |codePoints| ==> cp == codePoints[index]
      ensures !(0 <= index < |codePoints|) ==> cp == 0
    {
      if 0 <= index < |codePoints| then codePoints[index] else 0
    }

    /** charIndex(): the cluster (byte offset) of the glyph at the cursor. */
    function CharIndex(): (c: int)
      reads this
      requires 0 <= index < |glyphs|
      ensures c == glyphs[index].cluster
    {
      glyphs[index].cluster
    }

    /** glyphIndex(): the glyph index at the cursor, cut to glyph_t. */
    function GlyphIndex(): (g: nat)
      reads this
      requires 0 <= index < |glyphs|
      ensures g < GlyphLimit && g == glyphs[index].glyph % GlyphLimit
    {
      glyphs[index].glyph % GlyphLimit
    }
  }

  /** An empty string gives a shaper whose first `next()` returns 0. */
  method EmptyStringHasNoGlyphs(scriptOf: int -> nat, shape: Segment -> seq<ShapedGlyph>) returns (cp: int)
    ensures cp == 0
  {
    var s := new HBShaper([], scriptOf, shape);
    cp := s.Next();
  }
}
