/**
 * text/draw_text.cpp: the older text drawing entry point.
 *
 * Before drawing, `draw_text` looks for a font that has every code point:
 * while the current font has a fallback, code points are read until one
 * the font lacks, the fallback chain is walked to the first font that has
 * it, the baseline is moved by half the difference of the two heights,
 * and the scan goes on with the new font (`goto retry`) from where it
 * was.  A sprite-sheet font then draws each code point's box from its
 * sheet and moves the pen; the delegate may stop the loop before a
 * character is drawn.
 *
 * Fonts are a table: a font is named by its index, and its fallback by
 * the index of the fallback font.  `hasCodePoint` is a parameter of each
 * font.  The drawing calls are modelled by the list of clips drawn; the
 * FreeType branch (glyph blitting and blending) is not part of this model
 * and its bounds are a parameter.
 */
module DrawText {
  import opened Geometry
  import opened Wrappers
  import TextBlob
  import Utf8
  import SpriteSheetFont
  import opened TextBlobShaper

  /** One font of the table: its kind, `height()`, `hasCodePoint`, `fallback()` and, for a sprite font, its glyph table. */
  datatype FontEntry = FontEntry(
    kind: FontType,
    height: int,
    has: int -> bool,
    fallback: Option<nat>,
    sprite: SpriteSheetFont.Font)

  /**
   * Every fallback is a font of the table, later than the font that names
   * it, so the chains have no cycle.  The source's walk also ends on a
   * cyclic chain as long as each missing code point is found on it, and
   * it does not end when some code point is on no font of the cycle; the
   * model takes acyclic tables only.
   */
  predicate ChainOk(fonts: seq<FontEntry>)
  {
    forall k :: 0 <= k < |fonts| && fonts[k].fallback.Some? ==> k < fonts[k].fallback.value < |fonts|
  }

  /** The fonts met walking the fallback chain from `next` (the font itself excluded). */
  function Chain(fonts: seq<FontEntry>, next: Option<nat>): (r: seq<nat>)
    requires ChainOk(fonts) && (next.Some? ==> next.value < |fonts|)
    ensures forall k :: 0 <= k < |r| ==> r[k] < |fonts|
    ensures next.None? <==> r == []
    ensures next.Some? ==> r[0] == next.value
    decreases if next.Some? then |fonts| - next.value else 0
  {
    if next.None? then [] else [next.value] + Chain(fonts, fonts[next.value].fallback)
  }

  /**
   * The inner `while (newFont && !newFont->hasCodePoint(code))`: the first
   * font of the chain from `next` that has `code`, none when no font of
   * the chain has it.
   */
  function FirstWith(fonts: seq<FontEntry>, next: Option<nat>, code: int): (r: Option<nat>)
    requires ChainOk(fonts) && (next.Some? ==> next.value < |fonts|)
    ensures r.Some? ==> r.value < |fonts| && fonts[r.value].has(code)
    decreases if next.Some? then |fonts| - next.value else 0
  {
    if next.None? then None
    else if fonts[next.value].has(code) then next
    else FirstWith(fonts, fonts[next.value].fallback, code)
  }

  /** FirstWith finds the first font of the chain that has the code point, and finds none only when no font of it does. */
  lemma {:induction false} FirstWithIsFirst(fonts: seq<FontEntry>, next: Option<nat>, code: int)
    requires ChainOk(fonts) && (next.Some? ==> next.value < |fonts|)
    ensures FirstWith(fonts, next, code).None? <==>
            forall k :: 0 <= k < |Chain(fonts, next)| ==> !fonts[Chain(fonts, next)[k]].has(code)
    ensures FirstWith(fonts, next, code).Some? ==>
            exists i :: 0 <= i < |Chain(fonts, next)| && Chain(fonts, next)[i] == FirstWith(fonts, next, code).value &&
                        forall k :: 0 <= k < i ==> !fonts[Chain(fonts, next)[k]].has(code)
    decreases if next.Some? then |fonts| - next.value else 0
  {
    if next.Some? && !fonts[next.value].has(code) {
      var rest := fonts[next.value].fallback;
      FirstWithIsFirst(fonts, rest, code);
      var c := Chain(fonts, next);
      assert c == [next.value] + Chain(fonts, rest);
      if FirstWith(fonts, rest, code).Some? {
        var i :| 0 <= i < |Chain(fonts, rest)| && Chain(fonts, rest)[i] == FirstWith(fonts, rest, code).value &&
                 forall k :: 0 <= k < i ==> !fonts[Chain(fonts, rest)[k]].has(code);
        assert c[i + 1] == FirstWith(fonts, next, code).value;
        assert forall k :: 0 <= k < i + 1 ==> !fonts[c[k]].has(code) by {
          forall k | 0 <= k < i + 1
            ensures !fonts[c[k]].has(code)
          {
            if k > 0 {
              assert c[k] == Chain(fonts, rest)[k - 1];
            }
          }
        }
      } else {
        assert forall k :: 0 <= k < |c| ==> !fonts[c[k]].has(code) by {
          forall k | 0 <= k < |c|
            ensures !fonts[c[k]].has(code)
          {
            if k > 0 {
              assert c[k] == Chain(fonts, rest)[k - 1];
            }
          }
        }
      }
    } else if next.Some? {
      assert Chain(fonts, next)[0] == next.value;
    }
  }

  /** `y += font->height()/2 - newFont->height()/2`, with C++ division. */
  function Shifted(y: int, from: FontEntry, to: FontEntry): int
  {
    y + TruncDiv(from.height, 2) - TruncDiv(to.height, 2)
  }

  /**
   * The font search of `draw_text`, from `font` at baseline `y`, over the
   * code points `cps` not yet read: the font and baseline it ends with.
   * A font without a fallback is kept.
   */
  function Search(fonts: seq<FontEntry>, font: nat, cps: seq<int>, y: int): (r: (nat, int))
    requires ChainOk(fonts) && font < |fonts|
    ensures r.0 < |fonts|
    decreases |cps|, 1
  {
    if fonts[font].fallback.None? then (font, y) else Scan(fonts, font, cps, y)
  }

  /**
   * The `while (code = decode.next())` loop: code points the font has are
   * passed over; at the first it lacks, the chain is searched, and either
   * the scan stops with this font or it starts again with the fallback.
   */
  function Scan(fonts: seq<FontEntry>, font: nat, cps: seq<int>, y: int): (r: (nat, int))
    requires ChainOk(fonts) && font < |fonts|
    ensures r.0 < |fonts|
    decreases |cps|, 0
  {
    if cps == [] then (font, y)
    else if fonts[font].has(cps[0]) then Scan(fonts, font, cps[1..], y)
    else
      match FirstWith(fonts, fonts[font].fallback, cps[0])
      case None => (font, y)
      case Some(newFont) => Search(fonts, newFont, cps[1..], Shifted(y, fonts[font], fonts[newFont]))
  }

  /** `font` is `from`, or a font of the fallback chain of `from`. */
  predicate Reaches(fonts: seq<FontEntry>, from: nat, font: nat)
    requires ChainOk(fonts) && from < |fonts|
  {
    font == from || font in Chain(fonts, fonts[from].fallback)
  }

  /** Being on a chain carries over: the chain of a font on the chain of `from` lies inside the chain of `from`. */
  lemma {:induction false} ChainTransitive(fonts: seq<FontEntry>, next: Option<nat>, mid: nat, font: nat)
    requires ChainOk(fonts) && (next.Some? ==> next.value < |fonts|)
    requires mid in Chain(fonts, next) && font in Chain(fonts, fonts[mid].fallback)
    ensures font in Chain(fonts, next)
    decreases if next.Some? then |fonts| - next.value else 0
  {
    var rest := fonts[next.value].fallback;
    assert Chain(fonts, next) == [next.value] + Chain(fonts, rest);
    if mid != next.value {
      ChainTransitive(fonts, rest, mid, font);
    }
  }

  lemma {:induction false} FirstWithOnChain(fonts: seq<FontEntry>, next: Option<nat>, code: int)
    requires ChainOk(fonts) && (next.Some? ==> next.value < |fonts|)
    ensures FirstWith(fonts, next, code).Some? ==> FirstWith(fonts, next, code).value in Chain(fonts, next)
    decreases if next.Some? then |fonts| - next.value else 0
  {
    if next.Some? && !fonts[next.value].has(code) {
      FirstWithOnChain(fonts, fonts[next.value].fallback, code);
    }
  }

  /**
   * The font search only moves down the fallback chain, and the baseline
   * it leaves is the start baseline moved by half the height of the first
   * font less half the height of the last one: the half-height steps of
   * the intermediate switches cancel out.
   */
  lemma {:induction false} SearchFollowsChain(fonts: seq<FontEntry>, font: nat, cps: seq<int>, y: int)
    requires ChainOk(fonts) && font < |fonts|
    ensures Reaches(fonts, font, Search(fonts, font, cps, y).0)
    ensures Search(fonts, font, cps, y).1 == Shifted(y, fonts[font], fonts[Search(fonts, font, cps, y).0])
    decreases |cps|, 1
  {
    if fonts[font].fallback.Some? {
      ScanFollowsChain(fonts, font, cps, y);
    }
  }

  lemma {:induction false} ScanFollowsChain(fonts: seq<FontEntry>, font: nat, cps: seq<int>, y: int)
    requires ChainOk(fonts) && font < |fonts|
    ensures Reaches(fonts, font, Scan(fonts, font, cps, y).0)
    ensures Scan(fonts, font, cps, y).1 == Shifted(y, fonts[font], fonts[Scan(fonts, font, cps, y).0])
    decreases |cps|, 0
  {
    if cps == [] {
    } else if fonts[font].has(cps[0]) {
      ScanFollowsChain(fonts, font, cps[1..], y);
    } else {
      var next := fonts[font].fallback;
      var found := FirstWith(fonts, next, cps[0]);
      if found.Some? {
        var y' := Shifted(y, fonts[font], fonts[found.value]);
        SearchFollowsChain(fonts, found.value, cps[1..], y');
        FirstWithOnChain(fonts, next, cps[0]);
        var last := Search(fonts, found.value, cps[1..], y').0;
        if last != found.value {
          ChainTransitive(fonts, next, found.value, last);
        }
      }
    }
  }

  /** A font that has every code point of the text is kept, and so is the baseline. */
  lemma {:induction false} SearchKeepsCoveringFont(fonts: seq<FontEntry>, font: nat, cps: seq<int>, y: int)
    requires ChainOk(fonts) && font < |fonts|
    requires forall k :: 0 <= k < |cps| ==> fonts[font].has(cps[k])
    ensures Search(fonts, font, cps, y) == (font, y)
    decreases |cps|
  {
    if fonts[font].fallback.Some? && cps != [] {
      SearchKeepsCoveringFont(fonts, font, cps[1..], y);
    }
  }

  /** A code point that no font of the chain has ends the search with the font the scan had reached. */
  lemma SearchStopsAtMissing(fonts: seq<FontEntry>, font: nat, cp: int, rest: seq<int>, y: int)
    requires ChainOk(fonts) && font < |fonts| && fonts[font].fallback.Some? && !fonts[font].has(cp)
    requires forall k :: 0 <= k < |Chain(fonts, fonts[font].fallback)| ==> !fonts[Chain(fonts, fonts[font].fallback)[k]].has(cp)
    ensures Search(fonts, font, [cp] + rest, y) == (font, y)
  {
    FirstWithIsFirst(fonts, fonts[font].fallback, cp);
  }

  /** The code points the decode loop reads from the text. */
  function TextCodePoints(text: seq<Utf8.byte>): seq<int>
  {
    Utf8.CodePoints(Utf8.Items(Utf8.Init(text)))
  }

  /** The `retry` loop of `draw_text`: the font drawing starts with, and its baseline. */
  method SearchFont(fonts: seq<FontEntry>, start: nat, text: seq<Utf8.byte>, y0: int) returns (font: nat, y: int)
    requires ChainOk(fonts) && start < |fonts|
    ensures (font, y) == Search(fonts, start, TextCodePoints(text), y0)
  {
    font, y := start, y0;
    var decode := Utf8.Init(text);
    while true
      invariant decode.Wf() && decode.str == text && font < |fonts|
      invariant Search(fonts, start, TextCodePoints(text), y0) ==
                Search(fonts, font, Utf8.CodePoints(Utf8.Items(decode)), y)
      decreases |text| - decode.pos
    {
      if fonts[font].fallback.None? {
        return;
      }
      ghost var from := decode.pos;
      while true
        invariant decode.Wf() && decode.str == text && from <= decode.pos
        invariant Search(fonts, start, TextCodePoints(text), y0) ==
                  Scan(fonts, font, Utf8.CodePoints(Utf8.Items(decode)), y)
        decreases |text| - decode.pos
      {
        Utf8.ItemsUnfold(decode);
        var code;
        code, decode := Utf8.Next(decode);
        if code == 0 {
          return;
        }
        if !fonts[font].has(code) {
          var newFont := WalkChain(fonts, fonts[font].fallback, code);
          if newFont.None? {
            return;
          }
          y := Shifted(y, fonts[font], fonts[newFont.value]);
          font := newFont.value;
          break;
        }
      }
    }
  }

  /** The walk `while (newFont && !newFont->hasCodePoint(code)) newFont = newFont->fallback();`. */
  method WalkChain(fonts: seq<FontEntry>, next: Option<nat>, code: int) returns (font: Option<nat>)
    requires ChainOk(fonts) && (next.Some? ==> next.value < |fonts|)
    ensures font == FirstWith(fonts, next, code)
  {
    font := next;
    while font.Some? && !fonts[font.value].has(code)
      invariant ChainOk(fonts) && (font.Some? ==> font.value < |fonts|)
      invariant FirstWith(fonts, font, code) == FirstWith(fonts, next, code)
      decreases if font.Some? then |fonts| - font.value else 0
    {
      font := fonts[font.value].fallback;
    }
  }

  // ---------------------------------------------------------------------
  // The sprite-sheet branch
  // ---------------------------------------------------------------------

  /** `drawColoredRgbaSurface(sheet, fg, bg, gfx::Clip(x, y, charBounds))`: the sheet box drawn at a point. */
  datatype Clip = Clip(dst: Point, src: Rect)

  /**
   * What the sprite loop leaves: the text bounds, the pen, the clips
   * drawn, and the code points shown to the delegate's `preProcessChar`.
   */
  datatype Drawing = Drawing(bounds: Rect, x: int, clips: seq<Clip>, processed: seq<Utf8.Item>)

  /**
   * The sprite loop from state `d` over the code points `items` still to
   * read, at baseline `y`.  `delegate` is the answer of the delegate's
   * `preDrawChar` for a character box, none without a delegate; `surface`
   * says whether there is a surface to draw on.
   */
  function DrawItems(f: SpriteSheetFont.Font, items: seq<Utf8.Item>, d: Drawing, y: int,
                     delegate: Option<Rect -> bool>, surface: bool): (r: Drawing)
    decreases |items|
  {
    if items == [] then d
    else
      var cb := SpriteSheetFont.GetCharBounds(f, items[0].cp);
      var out := Rect(d.x, y, cb.w, cb.h);
      var processed := if delegate.Some? then d.processed + [items[0]] else d.processed;
      if delegate.Some? && !delegate.value(out) then d.(processed := processed)
      else
        var clips := if !cb.IsEmpty() && surface then d.clips + [Clip(Point(d.x, y), cb)] else d.clips;
        DrawItems(f, items[1..], Drawing(Union(d.bounds, out), d.x + cb.w, clips, processed), y, delegate, surface)
  }

  /** The sprite-sheet branch of `draw_text`: the decode loop drawing each character at the pen. */
  method DrawSprites(f: SpriteSheetFont.Font, text: seq<Utf8.byte>, x0: int, y: int,
                     delegate: Option<Rect -> bool>, surface: bool, bounds0: Rect)
    returns (d: Drawing)
    ensures d == DrawItems(f, Utf8.Items(Utf8.Init(text)), Drawing(bounds0, x0, [], []), y, delegate, surface)
  {
    var decode := Utf8.Init(text);
    d := Drawing(bounds0, x0, [], []);
    while true
      invariant decode.Wf() && decode.str == text
      invariant DrawItems(f, Utf8.Items(Utf8.Init(text)), Drawing(bounds0, x0, [], []), y, delegate, surface) ==
                DrawItems(f, Utf8.Items(decode), d, y, delegate, surface)
      decreases |text| - decode.pos
    {
      Utf8.ItemsUnfold(decode);
      ghost var rest := Utf8.Items(Utf8.Step(decode).1);
      var i := decode.pos;
      var chr;
      chr, decode := Utf8.Next(decode);
      if chr == 0 {
        return;
      }
      var stop;
      d, stop := DrawChar(f, Utf8.Item(i, chr), rest, d, y, delegate, surface);
      if stop {
        return;
      }
    }
  }

  /**
   * The sprite loop's body for one decoded character: it is shown to the
   * delegate, the loop stops when `preDrawChar` refuses its box, and
   * otherwise a non-empty box is drawn when there is a surface, the bounds
   * take in the box and the pen moves by its width.
   */
  method DrawChar(f: SpriteSheetFont.Font, item: Utf8.Item, ghost rest: seq<Utf8.Item>, d: Drawing, y: int,
                  delegate: Option<Rect -> bool>, surface: bool)
    returns (d': Drawing, stop: bool)
    ensures DrawItems(f, [item] + rest, d, y, delegate, surface) ==
            if stop then d' else DrawItems(f, rest, d', y, delegate, surface)
  {
    DrawOne(f, item, rest, d, y, delegate, surface);
    d' := d;
    var charBounds := SpriteSheetFont.GetCharBounds(f, item.cp);
    var outCharBounds := Rect(d'.x, y, charBounds.w, charBounds.h);
    if delegate.Some? {
      d' := d'.(processed := d'.processed + [item]);
    }
    if delegate.Some? && !delegate.value(outCharBounds) {
      return d', true;
    }
    if !charBounds.IsEmpty() && surface {
      d' := d'.(clips := d'.clips + [Clip(Point(d'.x, y), charBounds)]);
    }
    d' := d'.(bounds := Union(d'.bounds, outCharBounds), x := d'.x + charBounds.w);
    stop := false;
  }

  /** One character of the sprite loop. */
  lemma DrawOne(f: SpriteSheetFont.Font, item: Utf8.Item, rest: seq<Utf8.Item>, d: Drawing, y: int,
                delegate: Option<Rect -> bool>, surface: bool)
    ensures var cb := SpriteSheetFont.GetCharBounds(f, item.cp);
            var out := Rect(d.x, y, cb.w, cb.h);
            var processed := if delegate.Some? then d.processed + [item] else d.processed;
            DrawItems(f, [item] + rest, d, y, delegate, surface) ==
            if delegate.Some? && !delegate.value(out) then d.(processed := processed)
            else DrawItems(f, rest, Drawing(Union(d.bounds, out), d.x + cb.w,
                                            if !cb.IsEmpty() && surface then d.clips + [Clip(Point(d.x, y), cb)] else d.clips,
                                            processed), y, delegate, surface)
  {
    assert ([item] + rest)[1..] == rest;
  }

  /**
   * The sprite loop only adds to what it found: at most one drawn box and
   * one character shown to the delegate per code point, nothing shown
   * without a delegate and nothing drawn without a surface.
   */
  lemma {:induction false} DrawItemsGrows(f: SpriteSheetFont.Font, items: seq<Utf8.Item>, d: Drawing, y: int,
                                          delegate: Option<Rect -> bool>, surface: bool)
    ensures var r := DrawItems(f, items, d, y, delegate, surface);
            d.clips <= r.clips && |r.clips| <= |d.clips| + |items| &&
            d.processed <= r.processed && |r.processed| <= |d.processed| + |items| &&
            (delegate.None? ==> r.processed == d.processed) &&
            (!surface ==> r.clips == d.clips)
    decreases |items|
  {
    if items != [] {
      var cb := SpriteSheetFont.GetCharBounds(f, items[0].cp);
      var out := Rect(d.x, y, cb.w, cb.h);
      var processed := if delegate.Some? then d.processed + [items[0]] else d.processed;
      if !(delegate.Some? && !delegate.value(out)) {
        var clips := if !cb.IsEmpty() && surface then d.clips + [Clip(Point(d.x, y), cb)] else d.clips;
        DrawItemsGrows(f, items[1..], Drawing(Union(d.bounds, out), d.x + cb.w, clips, processed), y, delegate, surface);
      }
    }
  }

  /** Without a delegate to stop it, the pen ends at the start plus the text length, as `textLength` measures it. */
  lemma {:induction false} DrawAdvancesByTextLength(f: SpriteSheetFont.Font, items: seq<Utf8.Item>, d: Drawing, y: int, surface: bool)
    ensures DrawItems(f, items, d, y, None, surface).x == d.x + SpriteSheetFont.Advances(f, items)
    decreases |items|
  {
    if items != [] {
      var cb := SpriteSheetFont.GetCharBounds(f, items[0].cp);
      DrawAdvancesByTextLength(f, items[1..], Drawing(Union(d.bounds, Rect(d.x, y, cb.w, cb.h)), d.x + cb.w,
                               if !cb.IsEmpty() && surface then d.clips + [Clip(Point(d.x, y), cb)] else d.clips,
                               d.processed), y, surface);
    }
  }

  /**
   * Only non-empty boxes are drawn, each at the pen on the baseline, at
   * most one per code point, and every box drawn lies inside the text
   * bounds.
   */
  lemma {:induction false} DrawnBoxesInsideBounds(f: SpriteSheetFont.Font, items: seq<Utf8.Item>, d: Drawing, y: int,
                                                  delegate: Option<Rect -> bool>, surface: bool)
    requires ClipsInside(d.clips, y, d.bounds)
    ensures var r := DrawItems(f, items, d, y, delegate, surface);
            |r.clips| <= |d.clips| + |items| && ClipsInside(r.clips, y, r.bounds)
    decreases |items|
  {
    if items != [] {
      var cb := SpriteSheetFont.GetCharBounds(f, items[0].cp);
      var out := Rect(d.x, y, cb.w, cb.h);
      var processed := if delegate.Some? then d.processed + [items[0]] else d.processed;
      assert items == [items[0]] + items[1..];
      DrawOne(f, items[0], items[1..], d, y, delegate, surface);
      if !(delegate.Some? && !delegate.value(out)) {
        var clips := if !cb.IsEmpty() && surface then d.clips + [Clip(Point(d.x, y), cb)] else d.clips;
        ClipsInsideStep(d.clips, y, d.bounds, d.x, cb, surface);
        DrawnBoxesInsideBounds(f, items[1..], Drawing(Union(d.bounds, out), d.x + cb.w, clips, processed), y, delegate, surface);
      }
    }
  }

  /** Each drawn box is non-empty, on the baseline `y`, and inside `bounds`. */
  predicate ClipsInside(clips: seq<Clip>, y: int, bounds: Rect)
  {
    forall k :: 0 <= k < |clips| ==>
      !clips[k].src.IsEmpty() && clips[k].dst.y == y &&
      Within(Rect(clips[k].dst.x, y, clips[k].src.w, clips[k].src.h), bounds)
  }

  /** Drawing one more character's box, if any, keeps the boxes inside the bounds grown by that character's box. */
  lemma ClipsInsideStep(clips: seq<Clip>, y: int, bounds: Rect, x: int, cb: Rect, surface: bool)
    requires ClipsInside(clips, y, bounds)
    ensures ClipsInside(if !cb.IsEmpty() && surface then clips + [Clip(Point(x, y), cb)] else clips,
                        y, Union(bounds, Rect(x, y, cb.w, cb.h)))
  {
    var out := Rect(x, y, cb.w, cb.h);
    var clips' := if !cb.IsEmpty() && surface then clips + [Clip(Point(x, y), cb)] else clips;
    forall k | 0 <= k < |clips'|
      ensures !clips'[k].src.IsEmpty() && clips'[k].dst.y == y &&
              Within(Rect(clips'[k].dst.x, y, clips'[k].src.w, clips'[k].src.h), Union(bounds, out))
    {
      UnionWithin(bounds, out, Rect(clips'[k].dst.x, y, clips'[k].src.w, clips'[k].src.h));
    }
  }

  /** A delegate that refuses the first character stops the loop before anything is drawn or the pen moves. */
  lemma DelegateStopsFirst(f: SpriteSheetFont.Font, items: seq<Utf8.Item>, d: Drawing, y: int,
                           preDraw: Rect -> bool, surface: bool)
    requires items != []
    requires !preDraw(Rect(d.x, y, SpriteSheetFont.GetCharBounds(f, items[0].cp).w, SpriteSheetFont.GetCharBounds(f, items[0].cp).h))
    ensures DrawItems(f, items, d, y, Some(preDraw), surface) == d.(processed := d.processed + [items[0]])
  {
  }

  /**
   * draw_text: the font search, then the branch for the kind of font.  An
   * unknown font and a native one leave the text bounds empty; the
   * FreeType branch's bounds are `freeTypeBounds`.  The result is the
   * text bounds and the clips drawn.
   */
  method Draw(fonts: seq<FontEntry>, start: nat, text: seq<Utf8.byte>, x: int, y: int,
              delegate: Option<Rect -> bool>, surface: bool, freeTypeBounds: Rect)
    returns (textBounds: Rect, clips: seq<Clip>)
    requires ChainOk(fonts) && start < |fonts|
    ensures var (font, y') := Search(fonts, start, TextCodePoints(text), y);
            (fonts[font].kind == SpriteSheet ==>
               var r := DrawItems(fonts[font].sprite, Utf8.Items(Utf8.Init(text)), Drawing(EmptyRect, x, [], []), y', delegate, surface);
               textBounds == r.bounds && clips == r.clips) &&
            (fonts[font].kind == FreeType ==> textBounds == freeTypeBounds && clips == []) &&
            (fonts[font].kind in {Unknown, Native} ==> textBounds == EmptyRect && clips == [])
  {
    var font, y' := SearchFont(fonts, start, text, y);
    textBounds, clips := EmptyRect, [];
    match fonts[font].kind {
      case Unknown =>
      case SpriteSheet =>
        var d := DrawSprites(fonts[font].sprite, text, x, y', delegate, surface, EmptyRect);
        textBounds, clips := d.bounds, d.clips;
      case FreeType =>
        textBounds := freeTypeBounds;
      case Native =>
    }
  }

  // ---------------------------------------------------------------------
  // AdapterBuilder
  // ---------------------------------------------------------------------

  /** What the adapter hands the delegate for a glyph: the bytes it came from, and its box moved to the origin. */
  datatype GlyphCall = GlyphCall(range: TextBlob.Utf8Range, bounds: Rect)

  /**
   * AdapterBuilder::commitRunBuffer: runs without clusters or without
   * glyphs are ignored; otherwise, for each glyph, its byte range (by the
   * left-to-right or right-to-left rule) and its box offset by the origin.
   */
  method CommitRunBuffer(info: TextBlob.RunInfo, origin: Point,
                         fontBounds: nat -> Rect, avgCharWidth: int, capHeight: int)
    returns (calls: seq<GlyphCall>)
    requires info.Wf()
    ensures info.clusters.None? || info.glyphCount == 0 ==> calls == []
    ensures info.clusters.Some? ==>
              |calls| == info.glyphCount &&
              forall i :: 0 <= i < info.glyphCount ==>
                calls[i].range == TextBlob.GetGlyphUtf8Range(info, i) &&
                calls[i].bounds == TextBlob.GetGlyphBounds(info, i, fontBounds, avgCharWidth, capHeight).Offset(origin.x, origin.y)
  {
    calls := [];
    if info.clusters.None? || info.glyphCount == 0 {
      return;
    }
    var cl := info.clusters.value;
    var i := 0;
    while i < info.glyphCount
      invariant 0 <= i <= info.glyphCount && |calls| == i
      invariant forall k :: 0 <= k < i ==>
                  calls[k].range == TextBlob.GetGlyphUtf8Range(info, k) &&
                  calls[k].bounds == TextBlob.GetGlyphBounds(info, k, fontBounds, avgCharWidth, capHeight).Offset(origin.x, origin.y)
    {
      var utf8Begin, utf8End;
      if !info.rtl {
        utf8Begin := info.utf8Range.begin + cl[i];
        utf8End := if i + 1 < info.glyphCount then info.utf8Range.begin + cl[i + 1] else info.utf8Range.end;
      } else {
        utf8Begin := info.utf8Range.begin + cl[i];
        utf8End := if i == 0 then info.utf8Range.end else info.utf8Range.begin + cl[i - 1];
      }
      var bounds := TextBlob.GetGlyphBounds(info, i, fontBounds, avgCharWidth, capHeight).Offset(origin.x, origin.y);
      calls := calls + [GlyphCall(TextBlob.Utf8Range(utf8Begin, utf8End), bounds)];
      i := i + 1;
    }
  }
}
