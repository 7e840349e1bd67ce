/**
 * os/common/system.h and os/common/system.cpp: what every System
 * back end shares.
 *
 * Keys are a datatype and the pressed ones a set (os/keys.h is not part
 * of this model; the modifier bits are taken as Shift 1, Ctrl 2, Alt 4,
 * Cmd 8, Space 16 and Win 32).  A clipboard image is its clip::image_spec
 * and its bytes; the surface makeSurface fills is given as rows of
 * un-packed colour components, since the packing shifts come from the
 * surface format.  Systems are named by numbers.
 */
module CommonSystem {
  import opened Wrappers
  import opened Events
  import opened Geometry
  import SpriteSheetFont
  import Utf8

  // ---------------------------------------------------------------- keyModifiers

  datatype Key = LShift | RShift | LControl | RControl | Alt | AltGr | Command | Space | LWin | RWin

  const ShiftModifier: bv8 := 1
  const CtrlModifier: bv8 := 2
  const AltModifier: bv8 := 4
  const CmdModifier: bv8 := 8
  const SpaceModifier: bv8 := 16
  const WinModifier: bv8 := 32

  /**
   * keyModifiers: one bit per modifier, AltGr counting as Ctrl and Alt
   * together.  The modifier flags all sit in the low byte, so a byte holds them.
   */
  function KeyModifiers(pressed: set<Key>): (m: bv8)
    ensures m & ShiftModifier != 0 <==> LShift in pressed || RShift in pressed
    ensures m & CtrlModifier != 0 <==> LControl in pressed || RControl in pressed || AltGr in pressed
    ensures m & AltModifier != 0 <==> Alt in pressed || AltGr in pressed
    ensures m & CmdModifier != 0 <==> Command in pressed
    ensures m & SpaceModifier != 0 <==> Space in pressed
    ensures m & WinModifier != 0 <==> LWin in pressed || RWin in pressed
    ensures m & !0x3F == 0
  {
    (if LShift in pressed || RShift in pressed then ShiftModifier else 0) |
    (if LControl in pressed || RControl in pressed then CtrlModifier else 0) |
    (if Alt in pressed then AltModifier else 0) |
    (if AltGr in pressed then CtrlModifier | AltModifier else 0) |
    (if Command in pressed then CmdModifier else 0) |
    (if Space in pressed then SpaceModifier else 0) |
    (if LWin in pressed || RWin in pressed then WinModifier else 0)
  }

  /** More keys down never clears a modifier bit. */
  lemma KeyModifiersMonotone(a: set<Key>, b: set<Key>)
    requires a <= b
    ensures KeyModifiers(a) & KeyModifiers(b) == KeyModifiers(a)
  {
    var ma, mb := KeyModifiers(a), KeyModifiers(b);
    assert ma & !0x3F == 0;
    assert ma & ShiftModifier != 0 ==> mb & ShiftModifier != 0;
    assert ma & CtrlModifier != 0 ==> mb & CtrlModifier != 0;
    assert ma & AltModifier != 0 ==> mb & AltModifier != 0;
    assert ma & CmdModifier != 0 ==> mb & CmdModifier != 0;
    assert ma & SpaceModifier != 0 ==> mb & SpaceModifier != 0;
    assert ma & WinModifier != 0 ==> mb & WinModifier != 0;
  }

  // ---------------------------------------------------------------- makeSurface

  /** clip::image_spec; the masks and the pixel words are unsigned, kept as naturals. */
  datatype ImageSpec = ImageSpec(
    width: nat, height: nat, bitsPerPixel: nat, bytesPerRow: nat,
    redMask: nat, greenMask: nat, blueMask: nat, alphaMask: nat,
    redShift: nat, greenShift: nat, blueShift: nat, alphaShift: nat)

  /** The colour components makeSurface computes for one pixel. */
  datatype Rgba = Rgba(r: nat, g: nat, b: nat, a: nat)

  /** The only pixel depths makeSurface converts. */
  predicate Supported(spec: ImageSpec)
  {
    spec.bitsPerPixel == 32 || spec.bitsPerPixel == 24 || spec.bitsPerPixel == 16
  }

  /** Unsigned `a >> n`. */
  function Shr(a: nat, n: nat): (r: nat)
    ensures r <= a
  {
    if n == 0 then a else Shr(a / 2, n - 1)
  }

  /** Unsigned `a & b`, bit by bit. */
  function BitAnd(a: nat, b: nat): (r: nat)
    ensures r <= a && r <= b
    ensures b == 0 ==> r == 0
  {
    if a == 0 || b == 0 then 0 else 2 * BitAnd(a / 2, b / 2) + (a % 2) * (b % 2)
  }

  /** Shifting right keeps the order of two values. */
  lemma {:induction false} ShrMonotone(a: nat, b: nat, n: nat)
    requires a <= b
    ensures Shr(a, n) <= Shr(b, n)
  {
    if n > 0 {
      ShrMonotone(a / 2, b / 2, n - 1);
    }
  }

  /** A 16-bit image divides by each colour mask shifted down, so none of them may be zero. */
  predicate MasksUsable(spec: ImageSpec)
  {
    spec.bitsPerPixel == 16 ==>
      Shr(spec.redMask, spec.redShift) != 0 && Shr(spec.greenMask, spec.greenShift) != 0 &&
      Shr(spec.blueMask, spec.blueShift) != 0
  }

  /** A component: the masked bits shifted down; it never exceeds the mask shifted down. */
  function Channel(c: nat, mask: nat, shift: nat): (v: nat)
    ensures v <= Shr(mask, shift)
    ensures BitAnd(c, mask) == mask ==> v == Shr(mask, shift)
    ensures BitAnd(c, mask) == 0 ==> v == 0
  {
    ShrMonotone(BitAnd(c, mask), mask, shift);
    Shr(BitAnd(c, mask), shift)
  }

  /** get_rgba32: alpha from its mask or opaque, and each colour premultiplied by it. */
  function Rgba32(spec: ImageSpec, c: nat): (p: Rgba)
    ensures spec.alphaMask == 0 ==> p.a == 255
    ensures spec.alphaMask != 0 ==> p.a == Channel(c, spec.alphaMask, spec.alphaShift)
    ensures Channel(c, spec.redMask, spec.redShift) <= 255 ==> p.r <= p.a
    ensures Channel(c, spec.greenMask, spec.greenShift) <= 255 ==> p.g <= p.a
    ensures Channel(c, spec.blueMask, spec.blueShift) <= 255 ==> p.b <= p.a
    ensures p.a == 255 ==> p.r == Channel(c, spec.redMask, spec.redShift)
    ensures p.a == 255 ==> p.g == Channel(c, spec.greenMask, spec.greenShift)
    ensures p.a == 255 ==> p.b == Channel(c, spec.blueMask, spec.blueShift)
    ensures p.a == 0 ==> p.r == 0 && p.g == 0 && p.b == 0
  {
    var a := if spec.alphaMask != 0 then Channel(c, spec.alphaMask, spec.alphaShift) else 255;
    var r := Channel(c, spec.redMask, spec.redShift);
    var g := Channel(c, spec.greenMask, spec.greenShift);
    var b := Channel(c, spec.blueMask, spec.blueShift);
    Rgba(Premultiply(r, a), Premultiply(g, a), Premultiply(b, a), a)
  }

  /** A component premultiplied by alpha: at most the alpha when the component is at most 255, kept at full alpha, 0 at none. */
  function Premultiply(v: nat, a: nat): (r: nat)
    ensures v <= 255 ==> r <= a
    ensures a == 255 ==> r == v
    ensures a == 0 ==> r == 0
  {
    PremultiplyBounds(v, a);
    v * a / 255
  }

  lemma PremultiplyBounds(v: nat, a: nat)
    ensures v <= 255 ==> v * a / 255 <= a
    ensures a == 255 ==> v * a / 255 == v
  {
    if v <= 255 {
      MulLe(v, 255, a);
      assert 255 * a == a * 255;
      DivLe(v * a, a, 255);
    }
    if a == 255 {
      DivOfMultiple(v, 255);
    }
  }

  /** x <= y * d implies x / d <= y. */
  lemma DivLe(x: nat, y: nat, d: nat)
    requires d > 0 && x <= y * d
    ensures x / d <= y
  {
  }

  /** get_rgba24: opaque, and the components as they are. */
  function Rgba24(spec: ImageSpec, c: nat): (p: Rgba)
    ensures p.a == 255
    ensures p.r == Channel(c, spec.redMask, spec.redShift) && p.g == Channel(c, spec.greenMask, spec.greenShift)
    ensures p.b == Channel(c, spec.blueMask, spec.blueShift)
  {
    Rgba(Channel(c, spec.redMask, spec.redShift), Channel(c, spec.greenMask, spec.greenShift),
         Channel(c, spec.blueMask, spec.blueShift), 255)
  }

  /** Stretches a component of `max` levels to 0..255. */
  function Stretch(v: nat, max: nat): (s: nat)
    requires 0 < max && v <= max
    ensures s <= 255
    ensures v == max ==> s == 255
    ensures v == 0 ==> s == 0
  {
    MulLe(v, max, 255);
    assert max * 255 == 255 * max;
    DivLe(v * 255, 255, max);
    if v == max then
      DivOfMultiple(255, max);
      v * 255 / max
    else
      v * 255 / max
  }

  /** get_rgba16: opaque, and each component stretched from its mask's range to 0..255. */
  function Rgba16(spec: ImageSpec, c: nat): (p: Rgba)
    requires MasksUsable(spec) && spec.bitsPerPixel == 16
    ensures p.a == 255 && p.r <= 255 && p.g <= 255 && p.b <= 255
    ensures BitAnd(c, spec.redMask) == spec.redMask ==> p.r == 255
    ensures BitAnd(c, spec.redMask) == 0 ==> p.r == 0
  {
    Rgba(Stretch(Channel(c, spec.redMask, spec.redShift), Shr(spec.redMask, spec.redShift)),
         Stretch(Channel(c, spec.greenMask, spec.greenShift), Shr(spec.greenMask, spec.greenShift)),
         Stretch(Channel(c, spec.blueMask, spec.blueShift), Shr(spec.blueMask, spec.blueShift)), 255)
  }

  /** The bytes read for one pixel: a uint16_t for 16-bit images, a uint32_t otherwise. */
  function ReadWidth(spec: ImageSpec): nat
  {
    if spec.bitsPerPixel == 16 then 2 else 4
  }

  /** Where pixel (u, v) starts: v rows of bytesPerRow, then u pixels of bitsPerPixel/8 bytes. */
  function PixelOffset(spec: ImageSpec, v: nat, u: nat): nat
  {
    v * spec.bytesPerRow + u * (spec.bitsPerPixel / 8)
  }

  /** The data reaches the last byte the conversion reads, that of the last pixel of the last row. */
  predicate Readable(spec: ImageSpec, data: seq<Utf8.byte>)
  {
    spec.width == 0 || spec.height == 0 ||
    PixelOffset(spec, spec.height - 1, spec.width - 1) + ReadWidth(spec) <= |data|
  }

  /** A little-endian word of n bytes. */
  function Word(data: seq<Utf8.byte>, off: nat, n: nat): (w: nat)
    requires off + n <= |data|
    ensures n == 1 ==> w == data[off] as nat
    decreases n
  {
    if n == 0 then 0 else data[off] as nat + 256 * Word(data, off + 1, n - 1)
  }

  lemma OffsetInRange(spec: ImageSpec, data: seq<Utf8.byte>, v: nat, u: nat)
    requires Readable(spec, data) && v < spec.height && u < spec.width
    ensures PixelOffset(spec, v, u) + ReadWidth(spec) <= |data|
  {
    assert v * spec.bytesPerRow <= (spec.height - 1) * spec.bytesPerRow by {
      MulLe(v, spec.height - 1, spec.bytesPerRow);
    }
    assert u * (spec.bitsPerPixel / 8) <= (spec.width - 1) * (spec.bitsPerPixel / 8) by {
      MulLe(u, spec.width - 1, spec.bitsPerPixel / 8);
    }
  }

  lemma MulLe(a: nat, b: nat, c: nat)
    requires a <= b
    ensures a * c <= b * c
  {
  }

  /** The components of pixel (u, v) as the selected get_rgba reads them. */
  function PixelAt(spec: ImageSpec, data: seq<Utf8.byte>, v: nat, u: nat): Rgba
    requires Supported(spec) && MasksUsable(spec) && Readable(spec, data)
    requires v < spec.height && u < spec.width
  {
    OffsetInRange(spec, data, v, u);
    var c := Word(data, PixelOffset(spec, v, u), ReadWidth(spec));
    if spec.bitsPerPixel == 32 then Rgba32(spec, c)
    else if spec.bitsPerPixel == 24 then Rgba24(spec, c)
    else Rgba16(spec, c)
  }

  /** Row v of the surface holds the converted pixels of row v of the image. */
  predicate RowOk(spec: ImageSpec, data: seq<Utf8.byte>, v: nat, row: seq<Rgba>)
    requires Supported(spec) && MasksUsable(spec) && Readable(spec, data)
    requires v < spec.height
  {
    |row| == spec.width && forall u :: 0 <= u < |row| ==> row[u] == PixelAt(spec, data, v, u)
  }

  /**
   * makeSurface: null for a depth other than 32, 24 or 16 bits; otherwise
   * a surface of the image's size, filled row by row, stepping the source
   * bitsPerPixel/8 bytes per pixel and bytesPerRow per row.
   */
  method MakeSurface(spec: ImageSpec, data: seq<Utf8.byte>) returns (surface: Option<seq<seq<Rgba>>>)
    requires Supported(spec) ==> MasksUsable(spec) && Readable(spec, data)
    ensures surface.None? <==> !Supported(spec)
    ensures surface.Some? ==> |surface.value| == spec.height
    ensures surface.Some? ==> forall v :: 0 <= v < |surface.value| ==> RowOk(spec, data, v, surface.value[v])
  {
    if !Supported(spec) {
      return None;
    }
    var rows: seq<seq<Rgba>> := [];
    var v := 0;
    while v < spec.height
      invariant v <= spec.height && |rows| == v
      invariant forall k :: 0 <= k < v ==> RowOk(spec, data, k, rows[k])
    {
      var row := ReadRow(spec, data, v);
      rows := rows + [row];
      v := v + 1;
    }
    surface := Some(rows);
  }

  /** The inner loop of makeSurface: one row, pixel by pixel. */
  method ReadRow(spec: ImageSpec, data: seq<Utf8.byte>, v: nat) returns (row: seq<Rgba>)
    requires Supported(spec) && MasksUsable(spec) && Readable(spec, data)
    requires v < spec.height
    ensures RowOk(spec, data, v, row)
  {
    row := [];
    var src := v * spec.bytesPerRow;
    var u := 0;
    while u < spec.width
      invariant u <= spec.width && |row| == u && src == PixelOffset(spec, v, u)
      invariant forall k :: 0 <= k < u ==> row[k] == PixelAt(spec, data, v, k)
    {
      OffsetInRange(spec, data, v, u);
      var c := Word(data, src, ReadWidth(spec));
      var p := if spec.bitsPerPixel == 32 then Rgba32(spec, c)
               else if spec.bitsPerPixel == 24 then Rgba24(spec, c)
               else Rgba16(spec, c);
      row := row + [p];
      src := src + spec.bitsPerPixel / 8;
      assert (u + 1) * (spec.bitsPerPixel / 8) == u * (spec.bitsPerPixel / 8) + spec.bitsPerPixel / 8;
      u := u + 1;
    }
  }

  /** Every pixel of a converted 32-bit image with 8-bit colour fields is premultiplied: no component exceeds its alpha. */
  lemma {:induction false} Premultiplied32(spec: ImageSpec, data: seq<Utf8.byte>, v: nat, u: nat)
    requires spec.bitsPerPixel == 32 && Readable(spec, data)
    requires Shr(spec.redMask, spec.redShift) <= 255 && Shr(spec.greenMask, spec.greenShift) <= 255
    requires Shr(spec.blueMask, spec.blueShift) <= 255
    requires v < spec.height && u < spec.width
    ensures PixelAt(spec, data, v, u).r <= PixelAt(spec, data, v, u).a
    ensures PixelAt(spec, data, v, u).g <= PixelAt(spec, data, v, u).a
    ensures PixelAt(spec, data, v, u).b <= PixelAt(spec, data, v, u).a
  {
    OffsetInRange(spec, data, v, u);
    var c := Word(data, PixelOffset(spec, v, u), 4);
    assert PixelAt(spec, data, v, u) == Rgba32(spec, c);
  }

  // ---------------------------------------------------------------- loadSpriteSheetFont

  /**
   * loadSpriteSheetFont: no font when the sheet does not load; otherwise
   * the glyph table of the sheet after applyScale (Surface::applyScale is
   * not part of this model and is a parameter).
   */
  method LoadSpriteSheetFont(sheet: Option<SpriteSheetFont.Sheet>, scale: int,
                             applyScale: (SpriteSheetFont.Sheet, int) -> SpriteSheetFont.Sheet)
    returns (font: Option<SpriteSheetFont.Font>)
    ensures font.None? <==> sheet.None?
    ensures font.Some? ==> font.value.glyphs == SpriteSheetFont.Table(applyScale(sheet.value, scale))
    ensures font.Some? ==> SpriteSheetFont.GlyphTableOf(applyScale(sheet.value, scale), font.value.glyphs)
  {
    if sheet.None? {
      return None;
    }
    var f := SpriteSheetFont.FromSurface(applyScale(sheet.value, scale));
    font := Some(f);
  }

  // ---------------------------------------------------------------- the instance

  /** What destroyInstance does, in order. */
  datatype Step = EventsCleared | InstanceCleared

  /** The global g_instance, the global event queue, and the steps taken on them. */
  class Systems {
    var instance: Option<nat>
    var events: seq<Event>
    var steps: seq<Step>

    constructor (events: seq<Event>)
      ensures instance.None? && this.events == events && steps == []
    {
      instance := None;
      this.events := events;
      steps := [];
    }

    /** System::instance: the global, or null. */
    function Instance(): Option<nat>
      reads this
    {
      instance
    }

    /**
     * System::make: the Skia back end, else the platform's, else the
     * None back end, so the result is never null; it becomes the
     * instance only when there is none yet.
     */
    method Make(skia: Option<nat>, platform: Option<nat>, none: nat) returns (system: nat)
      modifies this
      ensures skia.Some? ==> system == skia.value
      ensures skia.None? && platform.Some? ==> system == platform.value
      ensures skia.None? && platform.None? ==> system == none
      ensures instance == if old(instance).None? then Some(system) else old(instance)
      ensures events == old(events) && steps == old(steps)
    {
      var ref := skia;
      if ref.None? {
        ref := platform;
      }
      if ref.None? {
        ref := Some(none);
      }
      system := ref.value;
      if instance.None? {
        instance := Some(system);
      }
    }

    /**
     * CommonSystem::destroyInstance: nothing unless `self` is the
     * instance; then the queue is emptied first and the instance cleared.
     */
    method DestroyInstance(self: nat)
      modifies this
      ensures old(instance) != Some(self) ==> instance == old(instance) && events == old(events) && steps == old(steps)
      ensures old(instance) == Some(self) ==> instance.None? && events == []
      ensures old(instance) == Some(self) ==> steps == old(steps) + [EventsCleared, InstanceCleared]
    {
      if instance != Some(self) {
        return;
      }
      events := [];
      steps := steps + [EventsCleared];
      instance := None;
      steps := steps + [InstanceCleared];
    }

    /** ~CommonSystem: destroyInstance only when this system is the instance. */
    method Destroy(self: nat)
      modifies this
      ensures old(instance) != Some(self) ==> instance == old(instance) && events == old(events) && steps == old(steps)
      ensures old(instance) == Some(self) ==> instance.None? && events == [] &&
                                               steps == old(steps) + [EventsCleared, InstanceCleared]
    {
      if instance == Some(self) {
        DestroyInstance(self);
      }
    }
  }

  /**
   * The first system made is the instance; a second one does not replace
   * it, and destroying it leaves the instance alone.  A derived
   * destructor calling destroyInstance and then the base destructor
   * clears the queue once.
   */
  method FirstMadeIsInstance(pending: seq<Event>, first: nat, second: nat)
    returns (afterMake: Option<nat>, afterSecond: Option<nat>, afterFirst: Option<nat>, steps: seq<Step>)
    requires first != second
    ensures afterMake == Some(first) && afterSecond == Some(first) && afterFirst.None?
    ensures steps == [EventsCleared, InstanceCleared]
  {
    var s := new Systems(pending);
    var a := s.Make(None, Some(first), 0);
    var b := s.Make(Some(second), None, 0);
    afterMake := s.Instance();
    s.DestroyInstance(b);
    s.Destroy(b);
    afterSecond := s.Instance();
    s.DestroyInstance(a);
    s.Destroy(a);
    afterFirst := s.Instance();
    steps := s.steps;
  }
}
