/**
 * text/sprite_sheet_font.h: a bitmap font cut out of a sprite sheet.
 *
 * The sheet is a grid of pixels whose top-left pixel is the key (background)
 * colour; each glyph is a box of non-key pixels, read in rows from the top.
 * Glyph 0 is the missing-character glyph and glyph 1 the null glyph, both
 * empty; the glyph for code point `cp` sits at index `cp - 32 + 2`.
 *
 * Pixels are read through `Sheet.pixel`, a total function: what the surface
 * returns outside its bounds is left open.
 */
module SpriteSheetFont {
  import opened Geometry
  import Utf8

  /** gfx::rgba(255, 0, 0): red with full alpha, red in the low byte (gfx/color.h is not part of this model). */
  const RedColor: nat := 0xFF00_00FF

  /** glyph_t is 16 bits wide. */
  const GlyphLimit: nat := 0x1_0000

  /** A locked sheet surface: its size and its pixels. */
  datatype Sheet = Sheet(width: int, height: int, pixel: (int, int) -> nat)

  /** A SpriteSheetFont: the glyph table `m_glyphs` (the sheet itself is only kept for drawing). */
  datatype Font = Font(glyphs: seq<Rect>)

  /**
   * codePointToGlyph: the index `cp - 32 + 2` taken modulo 2^16 (uint32
   * arithmetic cut to glyph_t), kept only when it names a non-empty entry.
   */
  function CodePointToGlyph(f: Font, cp: int): (g: nat)
    ensures g < GlyphLimit
    ensures g != 0 <==> (cp - 30) % GlyphLimit < |f.glyphs| && !f.glyphs[(cp - 30) % GlyphLimit].IsEmpty() &&
                        (cp - 30) % GlyphLimit != 0
    ensures g != 0 ==> g == (cp - 30) % GlyphLimit
  {
    var glyph := (cp - 32 + 2) % GlyphLimit;
    if glyph < |f.glyphs| && !f.glyphs[glyph].IsEmpty() then glyph else 0
  }

  /**
   * getCharBounds: the box of the code point's glyph, else the box of the
   * glyph for code point 128 (the replacement), else an empty rectangle.
   */
  function GetCharBounds(f: Font, cp: int): (r: Rect)
    ensures CodePointToGlyph(f, cp) != 0 ==> r == f.glyphs[CodePointToGlyph(f, cp)]
    ensures CodePointToGlyph(f, cp) == 0 && CodePointToGlyph(f, 128) != 0 ==> r == f.glyphs[CodePointToGlyph(f, 128)]
    ensures CodePointToGlyph(f, cp) == 0 && CodePointToGlyph(f, 128) == 0 ==> r == EmptyRect
    ensures r != EmptyRect ==> !r.IsEmpty() && r in f.glyphs
  {
    var glyph := CodePointToGlyph(f, cp);
    var glyph' := if glyph == 0 then CodePointToGlyph(f, 128) else glyph;
    if glyph' != 0 then f.glyphs[glyph'] else EmptyRect
  }

  /** getGlyphBounds: the table entry for a glyph index, or the replacement box when the index is past the table. */
  function GetGlyphBounds(f: Font, glyph: nat): (r: Rect)
    requires glyph < GlyphLimit
    ensures glyph < |f.glyphs| ==> r == f.glyphs[glyph]
    ensures glyph >= |f.glyphs| ==> r == GetCharBounds(f, 128)
  {
    if glyph < |f.glyphs| then f.glyphs[glyph] else GetCharBounds(f, 128)
  }

  /** height(): the height of the space character's box. */
  function Height(f: Font): (h: int)
    ensures h == GetCharBounds(f, ' ' as int).h
    ensures CodePointToGlyph(f, ' ' as int) == 0 && CodePointToGlyph(f, 128) == 0 ==> h == 0
  {
    GetCharBounds(f, ' ' as int).h
  }

  /** The value of `metrics()` and the ascent it writes: the line is `height()` tall, all of it above the baseline. */
  function Metrics(f: Font): (r: (int, int))
    ensures r.0 == Height(f) && r.1 == -r.0
  {
    var h := Height(f);
    (h, -h)
  }

  /** The advances of decoded code points added up: the width of each one's box. */
  function Advances(f: Font, items: seq<Utf8.Item>): (w: int)
    ensures items == [] ==> w == 0
    ensures (forall k :: 0 <= k < |items| ==> GetCharBounds(f, items[k].cp).w >= 0) ==> w >= 0
  {
    if items == [] then 0 else GetCharBounds(f, items[0].cp).w + Advances(f, items[1..])
  }

  lemma {:induction false} AdvancesAppend(f: Font, a: seq<Utf8.Item>, b: seq<Utf8.Item>)
    ensures Advances(f, a + b) == Advances(f, a) + Advances(f, b)
    decreases |a|
  {
    if a == [] {
      assert a + b == b;
    } else {
      assert (a + b)[1..] == a[1..] + b;
      AdvancesAppend(f, a[1..], b);
    }
  }

  /** textLength: the widths of the code points summed until `next()` returns 0. */
  method TextLength(f: Font, str: seq<Utf8.byte>) returns (x: int)
    ensures x == Advances(f, Utf8.Items(Utf8.Init(str)))
  {
    var decode := Utf8.Init(str);
    x := 0;
    ghost var seen: seq<Utf8.Item> := [];
    while true
      invariant decode.Wf() && decode.str == str
      invariant Utf8.Items(Utf8.Init(str)) == seen + Utf8.Items(decode)
      invariant x == Advances(f, seen)
      decreases |str| - decode.pos
    {
      Utf8.ItemsAdvance(str, seen, decode);
      ghost var item := Utf8.Item(decode.pos, Utf8.Step(decode).0);
      var chr;
      chr, decode := Utf8.Next(decode);
      if chr == 0 {
        return;
      }
      AdvancesAppend(f, seen, [item]);
      x := x + GetCharBounds(f, chr).w;
      seen := seen + [item];
    }
  }

  /** measureText: the text length, and a box of that width and of the font's height at the origin. */
  method MeasureText(f: Font, str: seq<Utf8.byte>) returns (w: int, bounds: Rect)
    ensures w == Advances(f, Utf8.Items(Utf8.Init(str)))
    ensures bounds == Rect(0, 0, w, Height(f))
  {
    w := TextLength(f, str);
    bounds := Rect(0, 0, w, Height(f));
  }

  /** A scan position comes no earlier than another in reading order (rows top to bottom, left to right). */
  predicate NotBefore(a: Rect, b: Rect)
  {
    a.y > b.y || (a.y == b.y && a.x >= b.x)
  }

  /**
   * The box a glyph scan stops on: non-key pixels along its top row and its
   * left column, bounded by a key pixel or the sheet's edge on the right and
   * at the bottom.
   */
  predicate IsGlyphBox(s: Sheet, key: nat, b: Rect)
  {
    0 <= b.x && 0 <= b.y && b.w >= 0 && b.h >= 0 && b.X2() <= s.width && b.Y2() <= s.height &&
    (forall x :: b.x <= x < b.X2() ==> s.pixel(x, b.y) != key) &&
    (b.X2() == s.width || s.pixel(b.X2(), b.y) == key) &&
    (forall y :: b.y <= y < b.Y2() ==> s.pixel(b.x, y) != key) &&
    (b.Y2() == s.height || s.pixel(b.x, b.Y2()) == key)
  }

  /** Every pixel of row `y` from column `x0` up to `x1` is the key colour. */
  predicate KeyRow(s: Sheet, key: nat, y: int, x0: int, x1: int)
  {
    forall x :: x0 <= x < x1 ==> s.pixel(x, y) == key
  }

  /** Every pixel of the whole-width rows `y0` up to `y1` is the key colour. */
  predicate KeyRows(s: Sheet, key: nat, y0: int, y1: int)
  {
    forall y, x :: y0 <= y < y1 && 0 <= x < s.width ==> s.pixel(x, y) == key
  }

  /** How far the scan from `b` is from the bottom of the sheet, and from the right edge. */
  function RowsLeft(s: Sheet, b: Rect): nat
  {
    if b.y < s.height then s.height - b.y else 0
  }

  function ColsLeft(s: Sheet, b: Rect): nat
  {
    if b.x < s.width then s.width - b.x else 0
  }

  /**
   * The first loop of findGlyph: from `b`, key-coloured pixels are skipped
   * in reading order, and a new row starts `b.h` pixels lower with a
   * height of 1.  The result is true with the position of the first
   * non-key pixel, or false with the position past the bottom of the
   * sheet; the width is never touched.  Completeness: every pixel passed
   * over, on the rest of the first row, on the rows skipped, and on the
   * row of the stop before it, is the key colour.
   */
  function Skip(s: Sheet, key: nat, b: Rect): (r: (bool, Rect))
    requires b.x >= 0 && b.y >= 0 && b.h >= 1
    ensures r.1.x >= 0 && r.1.y >= b.y && r.1.h >= 1 && r.1.w == b.w
    ensures r.0 ==> s.pixel(r.1.x, r.1.y) == key ==> false
    ensures r.0 && r.1.y == b.y ==> r.1 == b.(x := r.1.x) && b.x <= r.1.x && KeyRow(s, key, b.y, b.x, r.1.x)
    ensures r.0 && r.1.y == b.y && b.x < s.width ==> r.1.x < s.width
    ensures r.1.y != b.y ==> KeyRow(s, key, b.y, b.x, s.width) && b.y + b.h <= r.1.y && r.1.h == 1 &&
                             KeyRows(s, key, b.y + b.h, r.1.y)
    ensures r.0 && r.1.y != b.y ==> r.1.y < s.height && KeyRow(s, key, r.1.y, 0, r.1.x)
    ensures !r.0 ==> r.1.y >= s.height && r.1.x == 0
    decreases RowsLeft(s, b), ColsLeft(s, b)
  {
    if s.pixel(b.x, b.y) != key then (true, b)
    else if b.x + 1 < s.width then Skip(s, key, b.(x := b.x + 1))
    else if b.y + b.h >= s.height then (false, Rect(0, b.y + b.h, b.w, 1))
    else Skip(s, key, Rect(0, b.y + b.h, b.w, 1))
  }

  /** The second loop of findGlyph: how many non-key pixels run right from `(x, y)` before a key pixel or the edge. */
  function RunRight(s: Sheet, key: nat, x: int, y: int): (w: nat)
    ensures w > 0 ==> x + w <= s.width
    ensures KeyRowFree(s, key, y, x, x + w)
    ensures x + w < s.width ==> s.pixel(x + w, y) == key
    decreases s.width - x
  {
    if x < s.width && s.pixel(x, y) != key then 1 + RunRight(s, key, x + 1, y) else 0
  }

  /** The third loop of findGlyph: how many non-key pixels run down from `(x, y)` before a key pixel or the edge. */
  function RunDown(s: Sheet, key: nat, x: int, y: int): (h: nat)
    ensures h > 0 ==> y + h <= s.height
    ensures forall y' :: y <= y' < y + h ==> s.pixel(x, y') != key
    ensures y + h < s.height ==> s.pixel(x, y + h) == key
    decreases s.height - y
  {
    if y < s.height && s.pixel(x, y) != key then 1 + RunDown(s, key, x, y + 1) else 0
  }

  /** No pixel of row `y` from `x0` up to `x1` is the key colour. */
  predicate KeyRowFree(s: Sheet, key: nat, y: int, x0: int, x1: int)
  {
    forall x :: x0 <= x < x1 ==> s.pixel(x, y) != key
  }

  /** What glyphBounds receives for a box: the box, or an empty rectangle when its first pixel is red. */
  function GlyphOf(s: Sheet, box: Rect): Rect
  {
    if s.pixel(box.x, box.y) == RedColor then EmptyRect else box
  }

  /**
   * What findGlyph does from `bounds`: the box at the first non-key pixel,
   * found when it is not empty; off the bottom of the sheet, not found.
   */
  function Find(s: Sheet, bounds: Rect): (r: (bool, Rect, Rect))
    requires bounds.x >= 0 && bounds.y >= 0 && bounds.h >= 1
    ensures r.0 ==> !r.1.IsEmpty() && IsGlyphBox(s, s.pixel(0, 0), r.1) && NotBefore(r.1, bounds)
    ensures r.0 ==> r.2 == GlyphOf(s, r.1)
    ensures !r.0 ==> r.1.IsEmpty() || r.1.y >= s.height
  {
    var key := s.pixel(0, 0);
    var (stopped, at) := Skip(s, key, bounds);
    if !stopped then (false, at, EmptyRect)
    else
      var box := Rect(at.x, at.y, RunRight(s, key, at.x, at.y), RunDown(s, key, at.x, at.y));
      (!box.IsEmpty(), box, GlyphOf(s, box))
  }

  /**
   * findGlyph, with the source's three loops.  A box whose first pixel is
   * red is reported as an empty glyph.  When the scan runs off the bottom
   * of the sheet the result is false and `glyphBounds` is not written
   * (here: an empty rectangle).
   */
  method FindGlyph(s: Sheet, bounds: Rect) returns (found: bool, bounds': Rect, glyphBounds: Rect)
    requires bounds.x >= 0 && bounds.y >= 0 && bounds.h >= 1
    ensures (found, bounds', glyphBounds) == Find(s, bounds)
  {
    var keyColor := s.pixel(0, 0);
    var stopped;
    stopped, bounds' := SkipKey(s, keyColor, bounds);
    if !stopped {
      return false, bounds', EmptyRect;
    }
    var firstCharPixel := s.pixel(bounds'.x, bounds'.y);
    var w := MeasureRight(s, keyColor, bounds'.x, bounds'.y);
    var h := MeasureDown(s, keyColor, bounds'.x, bounds'.y);
    bounds' := bounds'.(w := w, h := h);
    glyphBounds := if firstCharPixel != RedColor then bounds' else EmptyRect;
    found := !bounds'.IsEmpty();
  }

  /** The first loop of findGlyph: skipping key pixels in reading order. */
  method SkipKey(s: Sheet, keyColor: nat, bounds: Rect) returns (stopped: bool, bounds': Rect)
    requires bounds.x >= 0 && bounds.y >= 0 && bounds.h >= 1
    ensures (stopped, bounds') == Skip(s, keyColor, bounds)
  {
    var x, y, w, h := bounds.x, bounds.y, bounds.w, bounds.h;
    while s.pixel(x, y) == keyColor
      invariant x >= 0 && y >= 0 && h >= 1
      invariant Skip(s, keyColor, bounds) == Skip(s, keyColor, Rect(x, y, w, h))
      decreases if y < s.height then s.height - y else 0, if x < s.width then s.width - x else 0
    {
      x := x + 1;
      if x >= s.width {
        x, y, h := 0, y + h, 1;
        if y >= s.height {
          return false, Rect(x, y, w, h);
        }
      }
    }
    return true, Rect(x, y, w, h);
  }

  /** The second loop of findGlyph: the width of the box. */
  method MeasureRight(s: Sheet, keyColor: nat, x: int, y: int) returns (w: nat)
    ensures w == RunRight(s, keyColor, x, y)
  {
    w := 0;
    while x + w < s.width && s.pixel(x + w, y) != keyColor
      invariant RunRight(s, keyColor, x, y) == w + RunRight(s, keyColor, x + w, y)
      decreases s.width - x - w
    {
      w := w + 1;
    }
  }

  /** The third loop of findGlyph: the height of the box. */
  method MeasureDown(s: Sheet, keyColor: nat, x: int, y: int) returns (h: nat)
    ensures h == RunDown(s, keyColor, x, y)
  {
    h := 0;
    while y + h < s.height && s.pixel(x, y + h) != keyColor
      invariant RunDown(s, keyColor, x, y) == h + RunDown(s, keyColor, x, y + h)
      decreases s.height - y - h
    {
      h := h + 1;
    }
  }

  /** Where FromSurface resumes after a box: just right of it, on the same row and with its height. */
  function After(box: Rect): Rect
  {
    box.(x := box.x + box.w)
  }

  /**
   * Every box FromSurface finds from `bounds`, in order: non-empty glyph
   * boxes, each one strictly later in reading order than the one before.
   */
  function Boxes(s: Sheet, bounds: Rect): (r: seq<Rect>)
    requires bounds.x >= 0 && bounds.y >= 0 && bounds.h >= 1
    ensures forall k :: 0 <= k < |r| ==> !r[k].IsEmpty() && IsGlyphBox(s, s.pixel(0, 0), r[k])
    ensures r != [] ==> NotBefore(r[0], bounds)
    ensures forall k :: 0 <= k < |r| - 1 ==> NotBefore(r[k + 1], After(r[k]))
    decreases RowsLeft(s, bounds), ColsLeft(s, bounds)
  {
    var (found, box, _) := Find(s, bounds);
    if !found then [] else [box] + Boxes(s, After(box))
  }

  /** The glyph table entries of a list of boxes: red-marked boxes become empty entries. */
  function GlyphsOf(s: Sheet, boxes: seq<Rect>): (g: seq<Rect>)
    ensures |g| == |boxes| && forall k :: 0 <= k < |boxes| ==> g[k] == GlyphOf(s, boxes[k])
  {
    if boxes == [] then [] else [GlyphOf(s, boxes[0])] + GlyphsOf(s, boxes[1..])
  }

  /** Every entry past the two reserved ones is empty or a glyph box of the sheet. */
  predicate GlyphTableOf(s: Sheet, glyphs: seq<Rect>)
  {
    |glyphs| >= 2 && glyphs[0] == EmptyRect && glyphs[1] == EmptyRect &&
    forall g :: 2 <= g < |glyphs| ==> glyphs[g] == EmptyRect || IsGlyphBox(s, s.pixel(0, 0), glyphs[g])
  }

  /** The glyph table of a sheet: the two reserved glyphs, then one entry per box, scanning from the top-left pixel. */
  function Table(s: Sheet): (glyphs: seq<Rect>)
    ensures GlyphTableOf(s, glyphs)
  {
    [EmptyRect, EmptyRect] + GlyphsOf(s, Boxes(s, Rect(0, 0, 1, 1)))
  }

  /** FromSurface: the two reserved glyphs, then one entry per box found, scanning left to right after each box. */
  method FromSurface(s: Sheet) returns (f: Font)
    ensures f.glyphs == Table(s)
  {
    var glyphs := [EmptyRect, EmptyRect];
    var bounds := Rect(0, 0, 1, 1);
    ghost var seen: seq<Rect> := [];
    var found, b, glyphBounds := FindGlyph(s, bounds);
    while found
      invariant bounds.x >= 0 && bounds.y >= 0 && bounds.h >= 1
      invariant (found, b, glyphBounds) == Find(s, bounds)
      invariant Boxes(s, Rect(0, 0, 1, 1)) == seen + Boxes(s, bounds)
      invariant glyphs == [EmptyRect, EmptyRect] + GlyphsOf(s, seen)
      decreases RowsLeft(s, bounds), ColsLeft(s, bounds)
    {
      BoxesNext(s, bounds, seen);
      TableAppend(s, seen, b, glyphBounds);
      FindAdvances(s, bounds);
      glyphs := glyphs + [glyphBounds];
      seen := seen + [b];
      bounds := After(b);
      found, b, glyphBounds := FindGlyph(s, bounds);
    }
    assert seen + [] == seen;
    f := Font(glyphs);
  }

  /** One more box found: its entry goes at the end of the table. */
  lemma TableAppend(s: Sheet, seen: seq<Rect>, box: Rect, glyph: Rect)
    requires glyph == GlyphOf(s, box)
    ensures [EmptyRect, EmptyRect] + GlyphsOf(s, seen) + [glyph] == [EmptyRect, EmptyRect] + GlyphsOf(s, seen + [box])
  {
    GlyphsOfAppend(s, seen, box);
  }

  /** After a box is found, the next scan starts at a valid position strictly further on. */
  lemma FindAdvances(s: Sheet, bounds: Rect)
    requires bounds.x >= 0 && bounds.y >= 0 && bounds.h >= 1 && Find(s, bounds).0
    ensures var a := After(Find(s, bounds).1);
            a.x >= 0 && a.y >= 0 && a.h >= 1 &&
            (RowsLeft(s, a) < RowsLeft(s, bounds) || (RowsLeft(s, a) == RowsLeft(s, bounds) && ColsLeft(s, a) < ColsLeft(s, bounds)))
  {
  }

  /** One found box moves from the boxes still ahead to the boxes seen. */
  lemma BoxesNext(s: Sheet, bounds: Rect, seen: seq<Rect>)
    requires bounds.x >= 0 && bounds.y >= 0 && bounds.h >= 1 && Find(s, bounds).0
    ensures seen + Boxes(s, bounds) == (seen + [Find(s, bounds).1]) + Boxes(s, After(Find(s, bounds).1))
  {
    var b := Find(s, bounds).1;
    assert Boxes(s, bounds) == [b] + Boxes(s, After(b));
    assert seen + ([b] + Boxes(s, After(b))) == (seen + [b]) + Boxes(s, After(b));
  }

  lemma {:induction false} GlyphsOfAppend(s: Sheet, boxes: seq<Rect>, box: Rect)
    ensures GlyphsOf(s, boxes + [box]) == GlyphsOf(s, boxes) + [GlyphOf(s, box)]
  {
  }

  /**
   * No glyph is missed: a non-key pixel that starts a row of the sheet
   * before the first box found is not there, so FromSurface's first box
   * is the first non-key pixel of the sheet in reading order.
   */
  lemma FirstBoxIsFirstInk(s: Sheet, x: int, y: int)
    requires Boxes(s, Rect(0, 0, 1, 1)) != [] && 0 <= x < s.width && 0 <= y
    requires var b := Boxes(s, Rect(0, 0, 1, 1))[0]; y < b.y || (y == b.y && x < b.x)
    ensures s.pixel(x, y) == s.pixel(0, 0)
  {
    var key := s.pixel(0, 0);
    var sk := Skip(s, key, Rect(0, 0, 1, 1));
    assert sk.0 && sk.1.x == Boxes(s, Rect(0, 0, 1, 1))[0].x && sk.1.y == Boxes(s, Rect(0, 0, 1, 1))[0].y;
    if y == sk.1.y {
      assert KeyRow(s, key, y, 0, sk.1.x);
    } else if y == 0 {
      assert KeyRow(s, key, 0, 0, s.width);
    } else {
      assert KeyRows(s, key, 1, sk.1.y);
    }
  }

  /** Code points past U+FFFF wrap around in the 16-bit glyph index: U+10020 is drawn with the glyph of the space. */
  lemma GlyphIndexWraps(f: Font)
    ensures CodePointToGlyph(f, 0x1_0020) == CodePointToGlyph(f, ' ' as int)
  {
  }

  /** Inside a table, printable ASCII maps straight to its slot. */
  lemma AsciiGlyph(f: Font, cp: int)
    requires 32 <= cp && cp - 30 < |f.glyphs| && cp - 30 < GlyphLimit && !f.glyphs[cp - 30].IsEmpty()
    ensures CodePointToGlyph(f, cp) == cp - 30
    ensures GetCharBounds(f, cp) == f.glyphs[cp - 30]
  {
  }

  /** The reserved glyphs never come back from codePointToGlyph, so they are never drawn. */
  lemma ReservedGlyphsUnused(s: Sheet, f: Font, cp: int)
    requires GlyphTableOf(s, f.glyphs)
    ensures CodePointToGlyph(f, cp) != 1
  {
  }
}
